/**
 * The connector for the session/event provider (connectors/wialon_connector.py): it keeps the
 * unit map, turns each unit's last message into a sample, and stores the unit list with the
 * profile fields it reads. Each endless coroutine is modelled as one pass of its loop; the provider's
 * replies are inputs, None where the adapter returned None.
 */
module WialonConnector {
  import opened Wrappers
  import opened PyBuiltins
  import opened TelemetryTransport
  import opened WialonRecords
  import opened Repository
  import opened CityPointToken
  import opened ConnectorCommon
  import CarQueries
  import VehicleNaming

  /** The message parameter that carries the ignition state. */
  const IgnitionParam := "io_239"

  /** The profile fields that fill the department, model and registration-number columns. */
  const DepartmentField := "vehicle_type"
  const ModelField := "brand"
  const RegNumberField := "color"

  function UnitId(u: WialonUnit): int { u.id }

  /** `p.get('io_239')`. */
  function ParamOrNone(p: map<string, real>, key: string): (r: Option<real>)
    ensures r.Some? <==> key in p
    ensures r.Some? ==> r.value == p[key]
  {
    if key in p then Some(p[key]) else None
  }

  /**
   * One unit's last message, which has a position, turned into a sample: the provider's times are
   * kept as they are, fuel and light are absent, and the name is the unit's `nm`; no map entry for
   * the unit gives TypeError (subscripting None).
   */
  function WialonSample(s: WialonState, units: map<int, WialonUnit>): (r: Result<Transport, Exception>)
    requires s.lmsg.pos.Some?
    ensures r.Err? <==> s.id !in units
    ensures r.Err? ==> r.error == TypeError
    ensures r.Ok? ==> && r.value.ts == s.lmsg.t && r.value.lastConn == s.lmsg.rt
                      && r.value.latitude == s.lmsg.pos.value.y && r.value.longitude == s.lmsg.pos.value.x
                      && r.value.velocity == s.lmsg.pos.value.s
                      && r.value.carId == s.id && !r.value.isSent
                      && r.value.fuelLevel.None? && r.value.light.None?
                      && r.value.ignition == ParamOrNone(s.lmsg.p, IgnitionParam)
                      && r.value.name == units[s.id].nm
  {
    if s.id !in units then Err(TypeError)
    else
      var pos := s.lmsg.pos.value;
      TruncOfInt(s.lmsg.t);
      TruncOfInt(s.lmsg.rt);
      Ok(NewTransport(s.lmsg.t as real, false, pos.y, pos.x, pos.s, None, s.id,
                      ParamOrNone(s.lmsg.p, IgnitionParam), None, s.lmsg.rt as real, units[s.id].nm))
  }

  /** The envelope of a sample carries the message time in milliseconds and never a fuel level. */
  lemma SampleEnvelope(s: WialonState, units: map<int, WialonUnit>)
    requires s.lmsg.pos.Some? && s.id in units
    ensures var m := FormMqttMessage(WialonSample(s, units).value);
            m.0 == units[s.id].nm && m.1.ts == s.lmsg.t * 1000 && "fuel_level" !in m.1.values
  {
  }

  /** The units whose last message has a position, in order: the ones the pass converts. */
  function Positioned(states: seq<WialonState>): (r: seq<WialonState>)
    ensures |r| <= |states|
    ensures forall x :: x in r <==> x in states && x.lmsg.pos.Some?
  {
    if states == [] then []
    else
      var prev := Positioned(states[..|states| - 1]);
      var s := states[|states| - 1];
      assert states == states[..|states| - 1] + [s];
      if s.lmsg.pos.Some? then prev + [s] else prev
  }

  /** The filter keeps the order: filtering a concatenation concatenates the filtered parts. */
  lemma {:induction false} PositionedConcat(a: seq<WialonState>, b: seq<WialonState>)
    ensures Positioned(a + b) == Positioned(a) + Positioned(b)
    decreases |b|
  {
    if b != [] {
      var init := b[..|b| - 1];
      assert (a + b)[..|a + b| - 1] == a + init;
      assert (a + b)[|a + b| - 1] == b[|b| - 1];
      PositionedConcat(a, init);
    } else {
      assert a + b == a;
    }
  }

  /**
   * One pass of the state loop: the telemetry it builds, or the exception that ends the loop.
   * Each sample is appended before it is sent and the send's answer is ignored; without a
   * destination the first send raises AttributeError.
   */
  function PassSamples(states: seq<WialonState>, units: map<int, WialonUnit>, hasDestination: bool)
    : (r: Result<seq<Transport>, Exception>)
    ensures r.Ok? ==> |r.value| == |Positioned(states)|
  {
    if states == [] then Ok([])
    else
      var prev := PassSamples(states[..|states| - 1], units, hasDestination);
      var s := states[|states| - 1];
      if prev.Err? || s.lmsg.pos.None? then prev
      else
        match WialonSample(s, units)
        case Err(e) => Err(e)
        case Ok(t) => if hasDestination then Ok(prev.value + [t]) else Err(AttributeError)
  }

  /** A completed pass holds exactly the converted positioned units, in order. */
  lemma {:induction false} PassFollowsPositioned(states: seq<WialonState>, units: map<int, WialonUnit>,
                                                 hasDestination: bool)
    requires PassSamples(states, units, hasDestination).Ok?
    ensures var ts := PassSamples(states, units, hasDestination).value;
            var ps := Positioned(states);
            forall k :: 0 <= k < |ts| ==> WialonSample(ps[k], units) == Ok(ts[k])
  {
    if states != [] {
      PassFollowsPositioned(states[..|states| - 1], units, hasDestination);
    }
  }

  /** Every positioned unit is in the map, so it converts. */
  ghost predicate PositionedKnown(states: seq<WialonState>, units: map<int, WialonUnit>) {
    forall x :: x in states && x.lmsg.pos.Some? ==> x.id in units
  }

  /** Some unit is positioned, so the pass sends something. */
  ghost predicate AnyPositioned(states: seq<WialonState>) {
    exists x :: x in states && x.lmsg.pos.Some?
  }

  /** A pass completes exactly when every positioned unit is in the map, and there is a destination or nothing to send. */
  lemma {:induction false} PassCompletes(states: seq<WialonState>, units: map<int, WialonUnit>, hasDestination: bool)
    ensures PassSamples(states, units, hasDestination).Ok? <==>
            PositionedKnown(states, units) && (hasDestination || !AnyPositioned(states))
  {
    if states != [] {
      var init := states[..|states| - 1];
      var s := states[|states| - 1];
      PassCompletes(init, units, hasDestination);
      assert states == init + [s];
      assert forall x :: x in states <==> x in init || x == s;
      if s.lmsg.pos.Some? {
        assert AnyPositioned(states);
        assert PositionedKnown(states, units) <==> PositionedKnown(init, units) && s.id in units;
      } else {
        assert AnyPositioned(states) <==> AnyPositioned(init);
        assert PositionedKnown(states, units) <==> PositionedKnown(init, units);
      }
    }
  }

  /**
   * State `i` ends the pass with an exception, and `published` is what was handed to the
   * destination before it: the messages of the samples of the states before `i`.
   */
  ghost predicate PublishedBeforeRaise(states: seq<WialonState>, units: map<int, WialonUnit>, hasDestination: bool,
                                       published: seq<(string, Envelope)>, i: nat)
    requires i < |states|
  {
    && PassSamples(states[..i], units, hasDestination).Ok?
    && PassSamples(states[..i + 1], units, hasDestination).Err?
    && published == Messages(PassSamples(states[..i], units, hasDestination).value)
  }

  /** One more unit of the pass: skipped, appended, or the exception that ends it. */
  lemma PassStep(states: seq<WialonState>, units: map<int, WialonUnit>, hasDestination: bool, i: nat)
    requires i < |states|
    requires PassSamples(states[..i], units, hasDestination).Ok?
    ensures states[i].lmsg.pos.None? ==>
              PassSamples(states[..i + 1], units, hasDestination) == PassSamples(states[..i], units, hasDestination)
    ensures states[i].lmsg.pos.Some? && states[i].id in units && hasDestination ==>
              PassSamples(states[..i + 1], units, hasDestination)
              == Ok(PassSamples(states[..i], units, hasDestination).value + [WialonSample(states[i], units).value])
    ensures states[i].lmsg.pos.Some? && (states[i].id !in units || !hasDestination) ==>
              PassSamples(states[..i + 1], units, hasDestination).Err?
  {
    assert states[..i + 1][..i] == states[..i];
  }

  /** Once a prefix of the pass has raised, the pass raises the same exception. */
  lemma {:induction false} PassErrorPersists(states: seq<WialonState>, units: map<int, WialonUnit>,
                                             hasDestination: bool, i: nat)
    requires i <= |states|
    requires PassSamples(states[..i], units, hasDestination).Err?
    ensures PassSamples(states, units, hasDestination) == PassSamples(states[..i], units, hasDestination)
    decreases |states| - i
  {
    if i < |states| {
      var init := states[..|states| - 1];
      assert states[..i] == init[..i];
      PassErrorPersists(init, units, hasDestination, i);
    } else {
      assert states[..i] == states;
    }
  }

  /** The dictionary stored for a unit: its id and name, and the first value of each profile field, if any. */
  function PropsOf(u: WialonUnit): (p: UnitProps)
    ensures p.id == u.id && p.name == u.nm
    ensures p.department.None? <==> forall i :: 0 <= i < |u.pflds| ==> u.pflds[i].n != DepartmentField
    ensures p.model.None? <==> forall i :: 0 <= i < |u.pflds| ==> u.pflds[i].n != ModelField
    ensures p.regNumber.None? <==> forall i :: 0 <= i < |u.pflds| ==> u.pflds[i].n != RegNumberField
  {
    UnitProps(u.id, u.nm, FirstFieldValue(u.pflds, DepartmentField), FirstFieldValue(u.pflds, ModelField),
              FirstFieldValue(u.pflds, RegNumberField))
  }

  /**
   * The unit the naming pass skips is exactly the one stored without a registration number, and
   * otherwise the derived name is built from the stored one with its separators stripped.
   */
  lemma NamingUsesStoredRegNumber(u: WialonUnit)
    ensures VehicleNaming.DeriveName(u).None? <==> PropsOf(u).regNumber.None?
    ensures PropsOf(u).regNumber.Some? && !VehicleNaming.DeriveName(u).value.update ==>
              VehicleNaming.DeriveName(u).value.name == VehicleNaming.StripSeparators(PropsOf(u).regNumber.value)
  {
  }

  class Connector {
    var units: map<int, WialonUnit>
    const hasDestination: bool

    /** A connector with an empty unit map; the entry point passes no destination. */
    constructor (hasDestination: bool)
      ensures this.hasDestination == hasDestination && units == map[]
    {
      this.hasDestination := hasDestination;
      units := map[];
    }

    /** `start_loop`: authenticate, retrying after every refusal. */
    method StartLoop(auths: seq<Result<bool, Exception>>) returns (r: Result<nat, Halt>)
      ensures FirstAccepted(auths).None? <==> r == Err(StillRetrying)
      ensures r.Ok? ==> 1 <= r.value <= |auths| && auths[r.value - 1] == Ok(true)
                        && forall j :: 0 <= j < r.value - 1 ==> auths[j] == Ok(false)
    {
      r := AwaitAuth(auths);
    }

    /** `load_transport_in_memory`: the map is replaced wholesale; the later of two equal ids wins. */
    method LoadTransportInMemory(list: seq<WialonUnit>)
      modifies this`units
      ensures units == IndexLastWins(list, UnitId)
    {
      units := IndexLastWins(list, UnitId);
    }

    /** The loop building `transport_props`: one dictionary per listed unit, in list order. */
    method CollectProps(list: seq<WialonUnit>) returns (props: seq<UnitProps>)
      ensures |props| == |list|
      ensures forall i :: 0 <= i < |list| ==> props[i] == PropsOf(list[i])
    {
      props := [];
      for i := 0 to |list|
        invariant |props| == i
        invariant forall k :: 0 <= k < i ==> props[k] == PropsOf(list[k])
      {
        var u := list[i];
        var department := FirstFieldValue(u.pflds, DepartmentField);
        var model := FirstFieldValue(u.pflds, ModelField);
        var regNumber := FirstFieldValue(u.pflds, RegNumberField);
        props := props + [UnitProps(u.id, u.nm, department, model, regNumber)];
      }
    }

    /**
     * One pass of `check_transport_with_discreteness`: store the new units, then reload the map.
     * A refused list request (None) raises TypeError when subscripted, changing nothing.
     */
    method CheckTransports(db: Database, list: Option<seq<WialonUnit>>) returns (r: Result<(), Exception>)
      requires db.Valid()
      modifies db`cars, this`units
      ensures db.Valid()
      ensures list.None? ==> r == Err(TypeError) && db.cars == old(db.cars) && units == old(units)
      ensures list.Some? ==> r == Ok(()) && units == IndexLastWins(list.value, UnitId)
      ensures list.Some? ==> exists props: seq<UnitProps> ::
                && |props| == |list.value|
                && (forall i :: 0 <= i < |props| ==> props[i] == PropsOf(list.value[i]))
                && db.cars == InsertAllIfAbsent(old(db.cars), props, CarQueries.PropsId, CarQueries.WialonCarRow)
    {
      if list.None? {
        return Err(TypeError);
      }
      var props := CollectProps(list.value);
      CarQueries.AddWialonTransportIfNotExists(db, props);
      LoadTransportInMemory(list.value);
      r := Ok(());
    }

    /**
     * One pass of the state loop of `fetch_transport_states`: `published` is every message handed
     * to the destination, in order; the pass's telemetry is returned. A refused state request
     * raises TypeError.
     */
    method FetchTransportStates(states: Option<seq<WialonState>>)
      returns (r: Result<seq<Transport>, Exception>, published: seq<(string, Envelope)>)
      ensures states.None? ==> r == Err(TypeError) && published == []
      ensures states.Some? ==> r == PassSamples(states.value, units, hasDestination)
      ensures r.Ok? ==> published == Messages(r.value)
      ensures states.Some? && r.Err? ==>
                exists i :: 0 <= i < |states.value| && PublishedBeforeRaise(states.value, units, hasDestination, published, i)
    {
      published := [];
      if states.None? {
        return Err(TypeError), [];
      }
      var all := states.value;
      var telemetry: seq<Transport> := [];
      var i := 0;
      while i < |all|
        invariant 0 <= i <= |all|
        invariant PassSamples(all[..i], units, hasDestination) == Ok(telemetry)
        invariant published == Messages(telemetry)
      {
        var s := all[i];
        PassStep(all, units, hasDestination, i);
        if s.lmsg.pos.Some? {
          var sample := WialonSample(s, units);
          if sample.Err? || !hasDestination {
            PassErrorPersists(all, units, hasDestination, i + 1);
            r := PassSamples(all, units, hasDestination);
            assert PublishedBeforeRaise(all, units, hasDestination, published, i);
            return;
          }
          MessagesAppend(telemetry, sample.value);
          telemetry := telemetry + [sample.value];
          published := published + [FormMqttMessage(sample.value)];
        }
        i := i + 1;
      }
      assert all[..|all|] == all;
      r := Ok(telemetry);
    }
  }

  /** After a unit list is loaded, every positioned listed unit converts. */
  lemma LoadedUnitsConvert(list: seq<WialonUnit>, s: WialonState)
    requires s.lmsg.pos.Some? && s.id in KeysOf(list, UnitId)
    ensures WialonSample(s, IndexLastWins(list, UnitId)).Ok?
    ensures WialonSample(s, IndexLastWins(list, UnitId)).value.name in set u | u in list :: u.nm
  {
    EntriesAreItems(list, UnitId);
  }
}
