/**
 * The cars table's queries (database/queries/car_orm.py): the two insert-if-absent loops and the
 * filters over the table.
 */
module CarQueries {
  import opened Wrappers
  import opened CityPointRecords
  import opened WialonRecords
  import opened PyBuiltins
  import opened Repository
  import VehicleNaming

  function CpCarId(c: CpCar): int { c.id }

  function PropsId(p: UnitProps): int { p.id }

  function CarId(r: Car): int { r.id }

  /**
   * The row a new vehicle of the REST-polled provider becomes: its registration number with
   * every separator removed, used as the name as well; an absent model is the empty string and a
   * null one NULL; an absent or null hidden flag is None, which the ORM leaves out of the INSERT
   * so that the column default (false) is stored. A null registration number makes `re.sub`
   * raise before the row is built (`RegNumberIsNull`); the row given for it is never stored.
   */
  function CityPointCarRow(c: CpCar): (r: Car)
    ensures r.id == c.id && r.source == Some("city_point")
    ensures r.regNumber.Some? && r.name == r.regNumber.value
    ensures VehicleNaming.NoSeparators(r.name)
    ensures !RegNumberIsNull(c) ==> r.regNumber.value == VehicleNaming.StripSeparators(AttrGet(c.regNumber, "").value)
    ensures r.model == AttrGet(c.model, "") && r.department == None
    ensures r.isHidden == Some(c.isHidden == Some(true))
  {
    var reg := VehicleNaming.StripSeparators(AttrGet(c.regNumber, "").GetOr(""));
    Car(c.id, reg, None, AttrGet(c.model, ""), Some(reg), Some(c.isHidden == Some(true)), Some("city_point"))
  }

  /**
   * The row a unit's properties become: the columns it names, `is_hidden` at its column
   * default (false), no source.
   */
  function WialonCarRow(p: UnitProps): (r: Car)
    ensures r.id == p.id && r.name == p.name
    ensures r.department == p.department && r.model == p.model && r.regNumber == p.regNumber
    ensures r.isHidden == Some(false) && r.source == None
  {
    Car(p.id, p.name, p.department, p.model, p.regNumber, Some(false), None)
  }

  /**
   * `add_transport_if_not_exists`: the insert-if-absent of the batch, committing car by car; a
   * new vehicle with a null registration number raises TypeError, leaving the earlier cars stored.
   */
  method AddTransportIfNotExists(db: Database, transports: seq<CpCar>) returns (r: Result<(), Exception>)
    requires db.Valid()
    modifies db`cars
    ensures db.Valid()
    ensures var stop := FirstRaisingFrom(old(db.cars), transports, CpCarId, CityPointCarRow, RegNumberIsNull, 0);
            && (stop.None? ==> r == Ok(()) && db.cars == InsertAllIfAbsent(old(db.cars), transports, CpCarId, CityPointCarRow))
            && (stop.Some? ==> r == Err(TypeError) && stop.value < |transports|
                               && db.cars == InsertAllIfAbsent(old(db.cars), transports[..stop.value], CpCarId, CityPointCarRow))
  {
    var stop;
    db.cars, stop := InsertEachIfAbsentOrRaise(db.cars, transports, CpCarId, CityPointCarRow, RegNumberIsNull);
    var stored := if stop.Some? then transports[..stop.value] else transports;
    InsertKeepsKeying(old(db.cars), stored, CpCarId, CityPointCarRow, CarId);
    r := if stop.Some? then Err(TypeError) else Ok(());
  }

  /** `add_wialon_transport_if_not_exists`. */
  method AddWialonTransportIfNotExists(db: Database, transports: seq<UnitProps>)
    requires db.Valid()
    modifies db`cars
    ensures db.Valid()
    ensures db.cars == InsertAllIfAbsent(old(db.cars), transports, PropsId, WialonCarRow)
  {
    db.cars := InsertEachIfAbsent(db.cars, transports, PropsId, WialonCarRow);
    InsertKeepsKeying(old(db.cars), transports, PropsId, WialonCarRow, CarId);
  }

  /** Python's truthiness of an optional string. */
  predicate TruthyText(s: Option<string>) {
    s.Some? && s.value != ""
  }

  /** `get_transport_ids`: the ids with the given source, or every id when the source is falsy. */
  function GetTransportIds(cars: map<int, Car>, source: Option<string>): (r: set<int>)
    ensures r <= cars.Keys
    ensures !TruthyText(source) ==> r == cars.Keys
    ensures TruthyText(source) ==> forall id :: id in r <==> id in cars && cars[id].source == source
  {
    if TruthyText(source) then set id | id in cars && cars[id].source == source else cars.Keys
  }

  /** `get_all_cars_ids`: `is_hidden == False` is false for NULL, so only rows explicitly not hidden. */
  function GetAllCarsIds(cars: map<int, Car>): (r: set<int>)
    ensures forall id :: id in r <==> id in cars && cars[id].isHidden == Some(false)
  {
    set id | id in cars && cars[id].isHidden == Some(false)
  }

  /** `get_car_by_id`. */
  function GetCarById(cars: map<int, Car>, id: int): (r: Option<Car>)
    ensures r.None? <==> id !in cars
    ensures CarsKeyed(cars) && r.Some? ==> r.value.id == id && r.value in cars.Values
  {
    if id in cars then Some(cars[id]) else None
  }

  /** `get_all_cars`: name, department and model of the rows whose source is 'wialon'. */
  function GetAllCars(cars: map<int, Car>): (r: set<(string, Option<string>, Option<string>)>)
    ensures forall t :: t in r <==> exists id :: id in cars && cars[id].source == Some("wialon")
                                              && t == (cars[id].name, cars[id].department, cars[id].model)
  {
    set id | id in cars && cars[id].source == Some("wialon") :: (cars[id].name, cars[id].department, cars[id].model)
  }

  /** `get_all_transport_names`, as the id-to-name dictionary its caller builds from it. */
  function GetAllTransportNames(cars: map<int, Car>): (r: map<int, string>)
    ensures r.Keys == cars.Keys
    ensures forall id :: id in r ==> r[id] == cars[id].name
  {
    map id | id in cars :: cars[id].name
  }

  /** Visible cars are a subset of all cars. */
  lemma VisibleAreListed(cars: map<int, Car>)
    ensures GetAllCarsIds(cars) <= GetTransportIds(cars, None)
  {
  }

  /**
   * After the insert, every vehicle of the batch is in the table, every id that was new carries
   * the 'city_point' source and a separator-free name, and old rows are unchanged.
   */
  lemma {:induction false} AddTransportListsBatch(cars: map<int, Car>, transports: seq<CpCar>)
    ensures var after := InsertAllIfAbsent(cars, transports, CpCarId, CityPointCarRow);
            && (forall i :: 0 <= i < |transports| ==> transports[i].id in GetTransportIds(after, None))
            && (forall i :: 0 <= i < |transports| && transports[i].id !in cars ==>
                  transports[i].id in GetTransportIds(after, Some("city_point"))
                  && VehicleNaming.NoSeparators(after[transports[i].id].name))
            && (forall id :: id in cars ==> id in after && after[id] == cars[id])
  {
    var after := InsertAllIfAbsent(cars, transports, CpCarId, CityPointCarRow);
    InsertKeys(cars, transports, CpCarId, CityPointCarRow);
    InsertNewRowsBuilt(cars, transports, CpCarId, CityPointCarRow);
    InsertKeepsExisting(cars, transports, CpCarId, CityPointCarRow);
    forall i | 0 <= i < |transports|
      ensures transports[i].id in after
    {
      assert CpCarId(transports[i]) in KeysOf(transports, CpCarId);
    }
  }

  /** A unit inserted by the wialon loop is visible, so it is polled; it carries no source. */
  lemma {:induction false} WialonUnitsAreVisible(cars: map<int, Car>, props: seq<UnitProps>)
    ensures var after := InsertAllIfAbsent(cars, props, PropsId, WialonCarRow);
            forall i :: 0 <= i < |props| && props[i].id !in cars ==>
              props[i].id in GetAllCarsIds(after) && after[props[i].id].source == None
  {
    var after := InsertAllIfAbsent(cars, props, PropsId, WialonCarRow);
    InsertKeys(cars, props, PropsId, WialonCarRow);
    InsertNewRowsBuilt(cars, props, PropsId, WialonCarRow);
    forall i | 0 <= i < |props| && props[i].id !in cars
      ensures props[i].id in GetAllCarsIds(after) && after[props[i].id].source == None
    {
      assert PropsId(props[i]) in KeysOf(props, PropsId);
    }
  }
}
