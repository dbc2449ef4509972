/**
 * The tables the queries work on, held in memory: cars and sensors keyed by their primary key,
 * buffered states, counters and run-time windows in insertion order with auto-incremented ids.
 * Also the insert-if-absent loop every "add ... if not exists" query runs.
 */
module Repository {
  import opened Wrappers
  import opened TelemetryTransport

  /** A row of `cars`. `source` is the column of the newer revision; rows without it hold None. */
  datatype Car = Car(
    id: int,
    name: string,
    department: Option<string>,
    model: Option<string>,
    regNumber: Option<string>,
    isHidden: Option<bool>,
    source: Option<string>)

  /** A row of `sensors`. */
  datatype Sensor = Sensor(id: int, sensorName: string, destination: int, sensorType: int)

  /** A row of `car_states`: the buffered sample and its auto-incremented id. */
  datatype CarState = CarState(id: int, state: StateModel)

  /** A row of `counters` (nullable mileage and engine seconds). */
  datatype Counter = Counter(mileage: Option<int>, engineSeconds: Option<int>, ts: int, carId: int)

  /** A row of `run_times`. */
  datatype RunTime = RunTime(id: int, startTs: int, endTs: int)

  ghost predicate CarsKeyed(cars: map<int, Car>) {
    forall id :: id in cars ==> cars[id].id == id
  }

  ghost predicate SensorsKeyed(sensors: map<int, Sensor>) {
    forall id :: id in sensors ==> sensors[id].id == id
  }

  /** Ids strictly increase along the table, and all are below the next id to hand out. */
  ghost predicate StateIdsOrdered(rows: seq<CarState>, next: int) {
    && (forall i :: 0 <= i < |rows| ==> rows[i].id < next)
    && (forall i, j :: 0 <= i < j < |rows| ==> rows[i].id < rows[j].id)
  }

  ghost predicate RunTimeIdsOrdered(rows: seq<RunTime>, next: int) {
    && (forall i :: 0 <= i < |rows| ==> rows[i].id < next)
    && (forall i, j :: 0 <= i < j < |rows| ==> rows[i].id < rows[j].id)
  }

  /** The database: one field per table. */
  class Database {
    var cars: map<int, Car>
    var sensors: map<int, Sensor>
    var carStates: seq<CarState>
    var nextCarStateId: int
    var counters: seq<Counter>
    var runTimes: seq<RunTime>
    var nextRunTimeId: int

    ghost predicate Valid()
      reads this
    {
      && CarsKeyed(cars)
      && SensorsKeyed(sensors)
      && StateIdsOrdered(carStates, nextCarStateId)
      && RunTimeIdsOrdered(runTimes, nextRunTimeId)
    }

    constructor ()
      ensures Valid()
      ensures cars == map[] && sensors == map[] && carStates == [] && counters == [] && runTimes == []
    {
      cars := map[];
      sensors := map[];
      carStates := [];
      nextCarStateId := 1;
      counters := [];
      runTimes := [];
      nextRunTimeId := 1;
    }
  }

  // ---------------------------------------------------------------------------------------
  // Insert-if-absent: for each item, if no row has its key, add the row built from it.

  /** The table after inserting `items` in order, each only if its key is still absent. */
  function InsertAllIfAbsent<T, R>(table: map<int, R>, items: seq<T>, key: T -> int, build: T -> R): (r: map<int, R>)
    ensures table.Keys <= r.Keys
  {
    if items == [] then table
    else
      var prev := InsertAllIfAbsent(table, items[..|items| - 1], key, build);
      var x := items[|items| - 1];
      if key(x) in prev then prev else prev[key(x) := build(x)]
  }

  /** The keys the items carry. */
  function KeysOf<T>(items: seq<T>, key: T -> int): set<int> {
    set i | 0 <= i < |items| :: key(items[i])
  }

  /** Rows that were there stay exactly as they were. */
  lemma {:induction false} InsertKeepsExisting<T, R>(table: map<int, R>, items: seq<T>, key: T -> int, build: T -> R)
    ensures forall k :: k in table ==>
              (k in InsertAllIfAbsent(table, items, key, build) && InsertAllIfAbsent(table, items, key, build)[k] == table[k])
  {
    if items != [] {
      InsertKeepsExisting(table, items[..|items| - 1], key, build);
    }
  }

  /** Afterwards the table holds exactly the old keys and the items' keys. */
  lemma {:induction false} InsertKeys<T, R>(table: map<int, R>, items: seq<T>, key: T -> int, build: T -> R)
    ensures InsertAllIfAbsent(table, items, key, build).Keys == table.Keys + KeysOf(items, key)
  {
    if items != [] {
      var init := items[..|items| - 1];
      InsertKeys(table, init, key, build);
      assert KeysOf(items, key) == KeysOf(init, key) + {key(items[|items| - 1])} by {
        forall k | k in KeysOf(items, key) ensures k in KeysOf(init, key) + {key(items[|items| - 1])} {
          var i :| 0 <= i < |items| && key(items[i]) == k;
          if i < |init| {
            assert init[i] == items[i];
          }
        }
        forall k | k in KeysOf(init, key) ensures k in KeysOf(items, key) {
          var i :| 0 <= i < |init| && key(init[i]) == k;
          assert items[i] == init[i];
        }
      }
    }
  }

  /** A new key gets the row built from its first occurrence in the batch; later duplicates are ignored. */
  lemma {:induction false} InsertFirstWins<T, R>(table: map<int, R>, items: seq<T>, key: T -> int, build: T -> R, i: int)
    requires 0 <= i < |items| && key(items[i]) !in table
    requires forall j :: 0 <= j < i ==> key(items[j]) != key(items[i])
    ensures key(items[i]) in InsertAllIfAbsent(table, items, key, build)
    ensures InsertAllIfAbsent(table, items, key, build)[key(items[i])] == build(items[i])
  {
    var last := |items| - 1;
    var init := items[..last];
    var prev := InsertAllIfAbsent(table, init, key, build);
    if i < last {
      assert init[i] == items[i];
      assert forall j :: 0 <= j < i ==> init[j] == items[j];
      InsertFirstWins(table, init, key, build, i);
    } else {
      InsertKeys(table, init, key, build);
      assert forall j :: 0 <= j < |init| ==> init[j] == items[j];
      assert key(items[i]) !in KeysOf(init, key);
    }
  }

  /** Every row that was not there before is built from some item carrying its key. */
  lemma {:induction false} InsertNewRowsBuilt<T, R>(table: map<int, R>, items: seq<T>, key: T -> int, build: T -> R)
    ensures forall k :: k in InsertAllIfAbsent(table, items, key, build) && k !in table ==>
              exists i :: 0 <= i < |items| && key(items[i]) == k
                          && InsertAllIfAbsent(table, items, key, build)[k] == build(items[i])
  {
    if items != [] {
      var init := items[..|items| - 1];
      InsertNewRowsBuilt(table, init, key, build);
      forall k | k in InsertAllIfAbsent(table, items, key, build) && k !in table
        ensures exists i :: 0 <= i < |items| && key(items[i]) == k
                            && InsertAllIfAbsent(table, items, key, build)[k] == build(items[i])
      {
        var prev := InsertAllIfAbsent(table, init, key, build);
        if k in prev {
          var i :| 0 <= i < |init| && key(init[i]) == k && prev[k] == build(init[i]);
          assert items[i] == init[i];
        } else {
          assert key(items[|items| - 1]) == k;
        }
      }
    }
  }

  /** Rows built with their own key as id keep a table keyed by id. */
  lemma {:induction false} InsertKeepsKeying<T, R>(table: map<int, R>, items: seq<T>, key: T -> int, build: T -> R, idOf: R -> int)
    requires forall x :: idOf(build(x)) == key(x)
    requires forall k :: k in table ==> idOf(table[k]) == k
    ensures forall k :: k in InsertAllIfAbsent(table, items, key, build) ==>
              idOf(InsertAllIfAbsent(table, items, key, build)[k]) == k
  {
    if items != [] {
      InsertKeepsKeying(table, items[..|items| - 1], key, build, idOf);
    }
  }

  /**
   * Item `j` stops the loop: its key is still absent when it is reached, and building its row
   * raises (the exception is not one the query catches).
   */
  ghost predicate RaisesAt<T, R>(table: map<int, R>, items: seq<T>, key: T -> int, build: T -> R, raises: T -> bool, j: nat)
    requires j < |items|
  {
    raises(items[j]) && key(items[j]) !in InsertAllIfAbsent(table, items[..j], key, build)
  }

  /** The first item at or after `i` that stops the loop, if any. */
  function FirstRaisingFrom<T, R>(table: map<int, R>, items: seq<T>, key: T -> int, build: T -> R,
                                  raises: T -> bool, i: nat): (r: Option<nat>)
    requires i <= |items|
    ensures r.Some? ==> i <= r.value < |items| && RaisesAt(table, items, key, build, raises, r.value)
    ensures forall j :: i <= j < |items| && (r.None? || j < r.value) ==> !RaisesAt(table, items, key, build, raises, j)
    decreases |items| - i
  {
    if i == |items| then None
    else if raises(items[i]) && key(items[i]) !in InsertAllIfAbsent(table, items[..i], key, build) then Some(i)
    else FirstRaisingFrom(table, items, key, build, raises, i + 1)
  }

  /**
   * The loop of every insert-if-absent query: check existence, build and add the row, commit; one
   * item at a time. Building a row may raise, which ends the loop with the earlier rows committed:
   * `stop` is the item that raised, and the table is the insert of the items before it.
   */
  method InsertEachIfAbsentOrRaise<T, R>(table: map<int, R>, items: seq<T>, key: T -> int, build: T -> R,
                                        raises: T -> bool)
    returns (r: map<int, R>, stop: Option<nat>)
    ensures stop == FirstRaisingFrom(table, items, key, build, raises, 0)
    ensures stop.None? ==> r == InsertAllIfAbsent(table, items, key, build)
    ensures stop.Some? ==> stop.value < |items| && r == InsertAllIfAbsent(table, items[..stop.value], key, build)
  {
    r := table;
    for i := 0 to |items|
      invariant r == InsertAllIfAbsent(table, items[..i], key, build)
      invariant FirstRaisingFrom(table, items, key, build, raises, 0) == FirstRaisingFrom(table, items, key, build, raises, i)
    {
      assert items[..i + 1][..i] == items[..i];
      var x := items[i];
      if key(x) !in r {
        if raises(x) {
          return r, Some(i);
        }
        r := r[key(x) := build(x)];
      }
    }
    assert items[..|items|] == items;
    stop := None;
  }

  /** The loop when building a row never raises. */
  method InsertEachIfAbsent<T, R>(table: map<int, R>, items: seq<T>, key: T -> int, build: T -> R)
    returns (r: map<int, R>)
    ensures r == InsertAllIfAbsent(table, items, key, build)
  {
    var stop;
    r, stop := InsertEachIfAbsentOrRaise(table, items, key, build, _ => false);
  }
}
