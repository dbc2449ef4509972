/**
 * The buffered-state table's queries (database/queries/car_state_orm.py): the page of the oldest
 * samples of one car, deletion of a page, and buffering of unsent samples.
 */
module CarStateQueries {
  import opened Wrappers
  import opened PyBuiltins
  import opened TelemetryTransport
  import opened Repository

  /** The page size of `get_history_data`. */
  const HistoryPageSize: nat := 30

  /** The rows of one car, in table order. */
  function RowsOfCar(rows: seq<CarState>, car: int): seq<CarState> {
    if rows == [] then []
    else (if rows[0].state.carId == car then [rows[0]] else []) + RowsOfCar(rows[1..], car)
  }

  /** The rows of one car are exactly the table's rows that carry its id. */
  lemma {:induction false} RowsOfCarMembers(rows: seq<CarState>, car: int)
    ensures forall x :: x in RowsOfCar(rows, car) <==> x in rows && x.state.carId == car
    ensures |RowsOfCar(rows, car)| <= |rows|
  {
    if rows != [] {
      RowsOfCarMembers(rows[1..], car);
      assert rows == [rows[0]] + rows[1..];
    }
  }

  predicate SortedByTs(s: seq<CarState>) {
    forall i, j :: 0 <= i < j < |s| ==> s[i].state.ts <= s[j].state.ts
  }

  /** Inserts `x` before the first row that is not older, so rows of equal ts keep their order. */
  function InsertByTs(x: CarState, s: seq<CarState>): seq<CarState> {
    if s == [] then [x]
    else if x.state.ts <= s[0].state.ts then [x] + s
    else [s[0]] + InsertByTs(x, s[1..])
  }

  /** Inserting into a sorted table keeps it sorted and adds exactly the one row. */
  lemma {:induction false} InsertByTsSpec(x: CarState, s: seq<CarState>)
    requires SortedByTs(s)
    ensures SortedByTs(InsertByTs(x, s))
    ensures multiset(InsertByTs(x, s)) == multiset(s) + multiset{x}
    ensures forall y :: y in InsertByTs(x, s) ==> y == x || y in s
    ensures |InsertByTs(x, s)| == |s| + 1
  {
    if s == [] {
    } else if x.state.ts <= s[0].state.ts {
      ConsSorted(x, s);
    } else {
      assert SortedByTs(s[1..]);
      InsertByTsSpec(x, s[1..]);
      var rest := InsertByTs(x, s[1..]);
      assert s == [s[0]] + s[1..];
      assert s[0].state.ts <= rest[0].state.ts by {
        assert rest[0] in rest;
        if rest[0] != x {
          SortedHeadFirst(s, rest[0]);
        }
      }
      ConsSorted(s[0], rest);
    }
  }

  /** The head of a sorted table is not newer than any row of it. */
  lemma SortedHeadFirst(s: seq<CarState>, y: CarState)
    requires SortedByTs(s) && y in s
    ensures s[0].state.ts <= y.state.ts
  {
    var j :| 0 <= j < |s| && s[j] == y;
    if j > 0 {
      assert s[0].state.ts <= s[j].state.ts;
    }
  }

  /** A row no newer than the head of a sorted table can go in front of it. */
  lemma ConsSorted(h: CarState, rest: seq<CarState>)
    requires SortedByTs(rest)
    requires rest == [] || h.state.ts <= rest[0].state.ts
    ensures SortedByTs([h] + rest)
  {
    var s := [h] + rest;
    forall i, j | 0 <= i < j < |s| ensures s[i].state.ts <= s[j].state.ts {
      assert s[j] == rest[j - 1];
      if i == 0 {
        if j > 1 {
          assert rest[0].state.ts <= rest[j - 1].state.ts;
        }
      } else {
        assert s[i] == rest[i - 1];
      }
    }
  }

  /** ORDER BY ts ASC; ties stay in table (insertion) order. */
  function SortByTs(s: seq<CarState>): seq<CarState> {
    if s == [] then [] else InsertByTs(s[0], SortByTs(s[1..]))
  }

  /** The sort returns the same rows, sorted by ts. */
  lemma {:induction false} SortByTsSpec(s: seq<CarState>)
    ensures SortedByTs(SortByTs(s))
    ensures multiset(SortByTs(s)) == multiset(s)
    ensures |SortByTs(s)| == |s|
  {
    if s != [] {
      SortByTsSpec(s[1..]);
      InsertByTsSpec(s[0], SortByTs(s[1..]));
      assert s == [s[0]] + s[1..];
    }
  }

  function Min(a: nat, b: nat): nat {
    if a <= b then a else b
  }

  /** `get_history_data`: at most 30 rows of the car, the oldest first; empty exactly when the car has no row. */
  function HistoryData(rows: seq<CarState>, car: int): (r: seq<CarState>)
    ensures |r| <= HistoryPageSize
    ensures r == [] <==> forall x :: x in rows ==> x.state.carId != car
  {
    var all := RowsOfCar(rows, car);
    RowsOfCarMembers(rows, car);
    SortByTsSpec(all);
    var sorted := SortByTs(all);
    var k := Min(HistoryPageSize, |sorted|);
    assert all != [] ==> all[0] in multiset(sorted);
    sorted[..k]
  }

  /** The page is sorted by ts, holds only rows of the car, and is full unless the car has fewer rows. */
  lemma HistoryDataSpec(rows: seq<CarState>, car: int)
    ensures |HistoryData(rows, car)| == Min(HistoryPageSize, |RowsOfCar(rows, car)|)
    ensures SortedByTs(HistoryData(rows, car))
    ensures forall x :: x in HistoryData(rows, car) ==> x in rows && x.state.carId == car
    ensures multiset(HistoryData(rows, car)) <= multiset(RowsOfCar(rows, car))
  {
    RowsOfCarMembers(rows, car);
    SortByTsSpec(RowsOfCar(rows, car));
    var sorted := SortByTs(RowsOfCar(rows, car));
    var k := Min(HistoryPageSize, |sorted|);
    assert HistoryData(rows, car) == sorted[..k];
    SortedPrefix(sorted, k);
    forall x | x in sorted[..k] ensures x in rows && x.state.carId == car {
      assert x in multiset(sorted[..k]);
      assert x in multiset(RowsOfCar(rows, car));
    }
  }

  /** A prefix of a sorted sequence is sorted and is part of it. */
  lemma SortedPrefix(s: seq<CarState>, k: nat)
    requires SortedByTs(s) && k <= |s|
    ensures SortedByTs(s[..k])
    ensures multiset(s[..k]) <= multiset(s)
  {
    assert s == s[..k] + s[k..];
    assert multiset(s) == multiset(s[..k]) + multiset(s[k..]);
  }

  /** The page holds the oldest rows: every row of the car left out is at least as new as every row in it. */
  lemma {:induction false} HistoryIsOldest(rows: seq<CarState>, car: int, x: CarState)
    requires multiset(HistoryData(rows, car))[x] < multiset(RowsOfCar(rows, car))[x]
    ensures forall y :: y in HistoryData(rows, car) ==> y.state.ts <= x.state.ts
  {
    SortByTsSpec(RowsOfCar(rows, car));
    var sorted := SortByTs(RowsOfCar(rows, car));
    var k := Min(HistoryPageSize, |sorted|);
    assert HistoryData(rows, car) == sorted[..k];
    var j := LeftOutIsInTail(sorted, k, x);
    SortedPrefixNotNewer(sorted, k, j);
  }

  /** A row the prefix holds fewer copies of than the whole sequence sits after the prefix. */
  lemma LeftOutIsInTail(s: seq<CarState>, k: nat, x: CarState) returns (j: nat)
    requires k <= |s| && multiset(s[..k])[x] < multiset(s)[x]
    ensures k <= j < |s| && s[j] == x
  {
    assert s == s[..k] + s[k..];
    assert multiset(s) == multiset(s[..k]) + multiset(s[k..]);
    assert x in multiset(s[k..]);
    var i :| 0 <= i < |s[k..]| && s[k..][i] == x;
    j := k + i;
  }

  /** In a sorted sequence, every row before position k is no newer than the row at j >= k. */
  lemma SortedPrefixNotNewer(s: seq<CarState>, k: nat, j: nat)
    requires SortedByTs(s) && k <= j < |s|
    ensures forall y :: y in s[..k] ==> y.state.ts <= s[j].state.ts
  {
    forall y | y in s[..k] ensures y.state.ts <= s[j].state.ts {
      var i :| 0 <= i < k && s[..k][i] == y;
      assert s[i] == y;
    }
  }

  // ---------------------------------------------------------------------------------------
  // delete_car_states

  /** The ids of a page of rows. */
  function IdsOf(data: seq<CarState>): set<int> {
    set x | x in data :: x.id
  }

  /** The table without the rows whose id is in `ids`, order kept. */
  function RemoveIds(rows: seq<CarState>, ids: set<int>): (r: seq<CarState>)
    ensures |r| <= |rows|
  {
    if rows == [] then []
    else (if rows[0].id in ids then [] else [rows[0]]) + RemoveIds(rows[1..], ids)
  }

  /** Exactly the rows whose id is not listed survive. */
  lemma {:induction false} RemoveIdsMembers(rows: seq<CarState>, ids: set<int>)
    ensures forall x :: x in RemoveIds(rows, ids) <==> x in rows && x.id !in ids
  {
    if rows != [] {
      RemoveIdsMembers(rows[1..], ids);
      assert rows == [rows[0]] + rows[1..];
    }
  }

  /** Removing in two steps is removing the union. */
  lemma {:induction false} RemoveIdsTwice(rows: seq<CarState>, a: set<int>, b: set<int>)
    ensures RemoveIds(RemoveIds(rows, a), b) == RemoveIds(rows, a + b)
  {
    if rows != [] {
      RemoveIdsTwice(rows[1..], a, b);
      var once := RemoveIds(rows, a);
      if rows[0].id !in a {
        assert once == [rows[0]] + RemoveIds(rows[1..], a);
        assert once != [] && once[0] == rows[0];
        assert once[1..] == RemoveIds(rows[1..], a);
        assert RemoveIds(once, b) == (if rows[0].id in b then [] else [rows[0]]) + RemoveIds(once[1..], b);
      } else {
        assert once == [] + RemoveIds(rows[1..], a) == RemoveIds(rows[1..], a);
        assert RemoveIds(rows, a + b) == [] + RemoveIds(rows[1..], a + b);
      }
    }
  }

  /** Removing rows keeps ids increasing and below the next id. */
  lemma {:induction false} RemoveIdsKeepsOrder(rows: seq<CarState>, ids: set<int>, next: int)
    requires StateIdsOrdered(rows, next)
    ensures StateIdsOrdered(RemoveIds(rows, ids), next)
  {
    if rows != [] {
      assert StateIdsOrdered(rows[1..], next);
      RemoveIdsKeepsOrder(rows[1..], ids, next);
      var rest := RemoveIds(rows[1..], ids);
      if rows[0].id !in ids {
        RemoveIdsMembers(rows[1..], ids);
        forall x | x in rest ensures rows[0].id < x.id {
          HeadIdFirst(rows, next, x);
        }
        ConsOrdered(rows[0], rest, next);
      }
    }
  }

  /** In an id-ordered table every row after the head has a greater id. */
  lemma HeadIdFirst(rows: seq<CarState>, next: int, x: CarState)
    requires StateIdsOrdered(rows, next) && rows != [] && x in rows[1..]
    ensures rows[0].id < x.id
  {
    var j :| 0 <= j < |rows[1..]| && rows[1..][j] == x;
    assert rows[j + 1] == x;
  }

  /** A row below the next id and below every id of an ordered table can go in front of it. */
  lemma ConsOrdered(h: CarState, rest: seq<CarState>, next: int)
    requires StateIdsOrdered(rest, next) && h.id < next
    requires forall x :: x in rest ==> h.id < x.id
    ensures StateIdsOrdered([h] + rest, next)
  {
    var s := [h] + rest;
    forall i, j | 0 <= i < j < |s| ensures s[i].id < s[j].id {
      assert s[j] == rest[j - 1];
      if i > 0 {
        assert s[i] == rest[i - 1];
      }
    }
    forall i | 0 <= i < |s| ensures s[i].id < next {
      if i > 0 {
        assert s[i] == rest[i - 1];
      }
    }
  }

  /** `delete_car_states`: every given row goes, by primary key; nothing else changes. */
  method DeleteCarStates(db: Database, data: seq<CarState>)
    requires db.Valid()
    modifies db`carStates
    ensures db.Valid()
    ensures db.carStates == RemoveIds(old(db.carStates), IdsOf(data))
  {
    ghost var start := db.carStates;
    assert RemoveIds(start, {}) == start by {
      RemoveNothing(start);
    }
    assert IdsOf(data[..0]) == {};
    for i := 0 to |data|
      invariant db.carStates == RemoveIds(start, IdsOf(data[..i]))
      invariant db.Valid()
    {
      RemoveIdsTwice(start, IdsOf(data[..i]), {data[i].id});
      assert IdsOf(data[..i + 1]) == IdsOf(data[..i]) + {data[i].id} by {
        assert data[..i + 1] == data[..i] + [data[i]];
      }
      RemoveIdsKeepsOrder(db.carStates, {data[i].id}, db.nextCarStateId);
      db.carStates := RemoveIds(db.carStates, {data[i].id});
    }
    assert data[..|data|] == data;
  }

  lemma {:induction false} RemoveNothing(rows: seq<CarState>)
    ensures RemoveIds(rows, {}) == rows
  {
    if rows != [] {
      RemoveNothing(rows[1..]);
      assert rows == [rows[0]] + rows[1..];
    }
  }

  // ---------------------------------------------------------------------------------------
  // save_unsent_telemetry and save_unsent_telemetry_list

  /** The rows a list of samples becomes, with consecutive ids from `next`. */
  function NewRows(telemetry: seq<Transport>, next: int): (r: seq<CarState>)
    ensures |r| == |telemetry|
    ensures forall i :: 0 <= i < |r| ==> r[i] == CarState(next + i, ToModel(telemetry[i]))
  {
    if telemetry == [] then []
    else NewRows(telemetry[..|telemetry| - 1], next) + [CarState(next + |telemetry| - 1, ToModel(telemetry[|telemetry| - 1]))]
  }

  /** Every sample's car is a row of `cars`: what the foreign key on `car_id` demands at commit. */
  predicate CarsKnown(telemetry: seq<Transport>, cars: map<int, Car>) {
    forall i :: 0 <= i < |telemetry| ==> telemetry[i].carId in cars
  }

  /** Appending fresh ids keeps ids ordered. */
  lemma AppendKeepsOrder(rows: seq<CarState>, next: int, telemetry: seq<Transport>)
    requires StateIdsOrdered(rows, next)
    ensures StateIdsOrdered(rows + NewRows(telemetry, next), next + |telemetry|)
  {
  }

  /** `save_unsent_telemetry`: one row built from `to_model()`; the commit fails for an unknown car. */
  method SaveUnsentTelemetry(db: Database, telemetry: Transport) returns (r: Result<(), Exception>)
    requires db.Valid()
    modifies db`carStates, db`nextCarStateId
    ensures db.Valid()
    ensures r.Ok? <==> telemetry.carId in db.cars
    ensures r.Ok? ==> db.carStates == old(db.carStates) + [CarState(old(db.nextCarStateId), ToModel(telemetry))]
    ensures r.Err? ==> r.error == IntegrityError && db.carStates == old(db.carStates)
  {
    if telemetry.carId !in db.cars {
      return Err(IntegrityError);
    }
    db.carStates := db.carStates + [CarState(db.nextCarStateId, ToModel(telemetry))];
    db.nextCarStateId := db.nextCarStateId + 1;
    r := Ok(());
  }

  /**
   * `save_unsent_telemetry_list`: one row per sample, in order, all in one commit; a single
   * unknown car makes the commit fail and nothing is saved.
   */
  method SaveUnsentTelemetryList(db: Database, telemetry: seq<Transport>) returns (r: Result<(), Exception>)
    requires db.Valid()
    modifies db`carStates, db`nextCarStateId
    ensures db.Valid()
    ensures r.Ok? <==> CarsKnown(telemetry, db.cars)
    ensures r.Ok? ==> db.carStates == old(db.carStates) + NewRows(telemetry, old(db.nextCarStateId))
    ensures r.Err? ==> r.error == IntegrityError && db.carStates == old(db.carStates)
  {
    var pending: seq<CarState> := [];
    var known := true;
    for i := 0 to |telemetry|
      invariant pending == NewRows(telemetry[..i], db.nextCarStateId)
      invariant known <==> CarsKnown(telemetry[..i], db.cars)
    {
      assert telemetry[..i + 1][..i] == telemetry[..i];
      pending := pending + [CarState(db.nextCarStateId + i, ToModel(telemetry[i]))];
      known := known && telemetry[i].carId in db.cars;
    }
    assert telemetry[..|telemetry|] == telemetry;
    if !known {
      return Err(IntegrityError);
    }
    AppendKeepsOrder(db.carStates, db.nextCarStateId, telemetry);
    db.carStates := db.carStates + pending;
    db.nextCarStateId := db.nextCarStateId + |telemetry|;
    r := Ok(());
  }

  /** A saved sample joins the end of its car's rows, so the car has a non-empty page to flush. */
  lemma {:induction false} SavedRowIsBuffered(rows: seq<CarState>, row: CarState)
    ensures RowsOfCar(rows + [row], row.state.carId) == RowsOfCar(rows, row.state.carId) + [row]
    ensures HistoryData(rows + [row], row.state.carId) != []
  {
    AppendRowsOfCar(rows, row, row.state.carId);
  }

  lemma {:induction false} AppendRowsOfCar(rows: seq<CarState>, row: CarState, car: int)
    ensures RowsOfCar(rows + [row], car) == RowsOfCar(rows, car) + (if row.state.carId == car then [row] else [])
  {
    if rows != [] {
      AppendRowsOfCar(rows[1..], row, car);
      assert (rows + [row])[1..] == rows[1..] + [row];
    }
  }
}
