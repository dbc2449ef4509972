/**
 * The older module-level query functions (database/operations.py) that both connectors import.
 * Its getters and its sensor and unit inserts behave exactly as the class-based queries modelled
 * in CarQueries and SensorQueries; what differs is the row a new vehicle becomes.
 */
module LegacyOperations {
  import opened Wrappers
  import opened PyBuiltins
  import opened CityPointRecords
  import opened Repository
  import CarQueries

  /**
   * The display name the older revision (and the REST connector) gives a vehicle: the
   * registration number with underscores turned into spaces, a space, and the model as an
   * f-string renders it (a null model prints as None).
   */
  function DisplayName(regNumber: string, model: Option<string>): (r: string)
    ensures |r| == |regNumber| + 1 + |Render(model)|
    ensures r[..|regNumber|] == ReplaceChar(regNumber, '_', ' ') && '_' !in r[..|regNumber|]
    ensures r[|regNumber|] == ' '
    ensures r[|regNumber| + 1..] == Render(model)
  {
    var reg := ReplaceChar(regNumber, '_', ' ');
    assert (reg + " " + Render(model))[..|regNumber|] == reg;
    reg + " " + Render(model)
  }

  /**
   * The row a new vehicle becomes here: underscores of the registration number turned into
   * spaces, name "{reg} {model}", an absent model the empty string and a null one NULL, the
   * hidden flag from the attributes with the column default for None, no source column. A null
   * registration number makes `.replace` raise before the row is built (`RegNumberIsNull`); the
   * row given for it is never stored.
   */
  function LegacyCarRow(c: CpCar): (r: Car)
    ensures r.id == c.id && r.source == None && r.isHidden == Some(c.isHidden == Some(true))
    ensures r.regNumber.Some? && '_' !in r.regNumber.value
    ensures !RegNumberIsNull(c) ==> r.regNumber.value == ReplaceChar(AttrGet(c.regNumber, "").value, '_', ' ')
    ensures !RegNumberIsNull(c) ==> r.name == DisplayName(AttrGet(c.regNumber, "").value, AttrGet(c.model, ""))
    ensures r.model == AttrGet(c.model, "")
  {
    var raw := AttrGet(c.regNumber, "").GetOr("");
    var reg := ReplaceChar(raw, '_', ' ');
    Car(c.id, DisplayName(raw, AttrGet(c.model, "")), None, AttrGet(c.model, ""), Some(reg),
        Some(c.isHidden == Some(true)), None)
  }

  /**
   * `add_transport_if_not_exists` of the older revision: the insert-if-absent of the batch,
   * committing car by car; a new vehicle with a null registration number raises
   * AttributeError, leaving the earlier cars stored.
   */
  method AddTransportIfNotExists(db: Database, transports: seq<CpCar>) returns (r: Result<(), Exception>)
    requires db.Valid()
    modifies db`cars
    ensures db.Valid()
    ensures var stop := FirstRaisingFrom(old(db.cars), transports, CarQueries.CpCarId, LegacyCarRow, RegNumberIsNull, 0);
            && (stop.None? ==> r == Ok(()) && db.cars == InsertAllIfAbsent(old(db.cars), transports, CarQueries.CpCarId, LegacyCarRow))
            && (stop.Some? ==> r == Err(AttributeError) && stop.value < |transports|
                               && db.cars == InsertAllIfAbsent(old(db.cars), transports[..stop.value], CarQueries.CpCarId, LegacyCarRow))
  {
    var stop;
    db.cars, stop := InsertEachIfAbsentOrRaise(db.cars, transports, CarQueries.CpCarId, LegacyCarRow, RegNumberIsNull);
    var stored := if stop.Some? then transports[..stop.value] else transports;
    InsertKeepsKeying(old(db.cars), stored, CarQueries.CpCarId, LegacyCarRow, CarQueries.CarId);
    r := if stop.Some? then Err(AttributeError) else Ok(());
  }

  /**
   * A new vehicle's stored name is the name the REST connector gives its samples, so the
   * sink sees one name for it whichever path reports it.
   */
  lemma {:induction false} LegacyNameIsSampleName(cars: map<int, Car>, transports: seq<CpCar>, i: int)
    requires 0 <= i < |transports| && transports[i].id !in cars && !RegNumberIsNull(transports[i])
    requires forall j :: 0 <= j < i ==> transports[j].id != transports[i].id
    ensures var after := InsertAllIfAbsent(cars, transports, CarQueries.CpCarId, LegacyCarRow);
            transports[i].id in after
            && after[transports[i].id].name
               == DisplayName(AttrGet(transports[i].regNumber, "").value, AttrGet(transports[i].model, ""))
  {
    InsertFirstWins(cars, transports, CarQueries.CpCarId, LegacyCarRow, i);
  }
}
