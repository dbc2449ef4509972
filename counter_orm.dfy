/** The counters table's queries (database/queries/counter_orm.py). */
module CounterQueries {
  import opened Wrappers
  import opened Repository

  /** `save_counter`: nothing to save when both readings are missing, and only for a known car. */
  method SaveCounter(db: Database, mileage: Option<int>, engineSeconds: Option<int>, ts: int, carId: int)
    requires db.Valid()
    modifies db`counters
    ensures db.Valid()
    ensures (mileage.None? && engineSeconds.None?) || carId !in db.cars ==> db.counters == old(db.counters)
    ensures (mileage.Some? || engineSeconds.Some?) && carId in db.cars ==>
              db.counters == old(db.counters) + [Counter(mileage, engineSeconds, ts, carId)]
  {
    if mileage.None? && engineSeconds.None? {
      return;
    }
    if carId in db.cars {
      db.counters := db.counters + [Counter(mileage, engineSeconds, ts, carId)];
    }
  }

  /** `add_counter`: an unconditional insert. */
  method AddCounter(db: Database, mileage: Option<int>, engineSeconds: Option<int>, ts: int, carId: int)
    requires db.Valid()
    modifies db`counters
    ensures db.Valid()
    ensures db.counters == old(db.counters) + [Counter(mileage, engineSeconds, ts, carId)]
  {
    db.counters := db.counters + [Counter(mileage, engineSeconds, ts, carId)];
  }

  // ---------------------------------------------------------------------------------------
  // get_day_stats: per car, MAX - MIN of each reading over the half-open window.

  predicate InWindow(c: Counter, start: int, end: int) {
    start <= c.ts < end
  }

  /** The non-NULL mileages of one car's rows in the window, in table order. */
  function Mileages(rows: seq<Counter>, car: int, start: int, end: int): (r: seq<int>)
    ensures forall x :: x in r ==> exists i :: 0 <= i < |rows| && rows[i].carId == car
                                             && InWindow(rows[i], start, end) && rows[i].mileage == Some(x)
    ensures forall i :: (0 <= i < |rows| && rows[i].carId == car && InWindow(rows[i], start, end)
                         && rows[i].mileage.Some?) ==> rows[i].mileage.value in r
  {
    if rows == [] then []
    else
      var init := rows[..|rows| - 1];
      var c := rows[|rows| - 1];
      assert forall i :: 0 <= i < |init| ==> init[i] == rows[i];
      Mileages(init, car, start, end)
        + (if c.carId == car && InWindow(c, start, end) && c.mileage.Some? then [c.mileage.value] else [])
  }

  /** The non-NULL engine-second readings of one car's rows in the window, in table order. */
  function EngineSeconds(rows: seq<Counter>, car: int, start: int, end: int): (r: seq<int>)
    ensures forall x :: x in r ==> exists i :: 0 <= i < |rows| && rows[i].carId == car
                                             && InWindow(rows[i], start, end) && rows[i].engineSeconds == Some(x)
    ensures forall i :: (0 <= i < |rows| && rows[i].carId == car && InWindow(rows[i], start, end)
                         && rows[i].engineSeconds.Some?) ==> rows[i].engineSeconds.value in r
  {
    if rows == [] then []
    else
      var init := rows[..|rows| - 1];
      var c := rows[|rows| - 1];
      assert forall i :: 0 <= i < |init| ==> init[i] == rows[i];
      EngineSeconds(init, car, start, end)
        + (if c.carId == car && InWindow(c, start, end) && c.engineSeconds.Some? then [c.engineSeconds.value] else [])
  }

  function MaxOf(s: seq<int>): (m: int)
    requires s != []
    ensures m in s && forall x :: x in s ==> x <= m
  {
    if |s| == 1 then s[0]
    else
      var rest := MaxOf(s[1..]);
      assert forall x :: x in s ==> x == s[0] || x in s[1..];
      if s[0] >= rest then s[0] else rest
  }

  function MinOf(s: seq<int>): (m: int)
    requires s != []
    ensures m in s && forall x :: x in s ==> m <= x
  {
    if |s| == 1 then s[0]
    else
      var rest := MinOf(s[1..]);
      assert forall x :: x in s ==> x == s[0] || x in s[1..];
      if s[0] <= rest then s[0] else rest
  }

  /**
   * `MAX(col) - MIN(col)`: NULL when the group has no non-NULL value, otherwise the largest
   * difference between two readings of the group.
   */
  function Spread(s: seq<int>): (r: Option<int>)
    ensures r.None? <==> s == []
    ensures r.Some? ==> r.value >= 0
    ensures r.Some? ==> forall a, b :: a in s && b in s ==> a - b <= r.value
    ensures r.Some? ==> exists a, b :: a in s && b in s && a - b == r.value
  {
    if s == [] then None else Some(MaxOf(s) - MinOf(s))
  }

  /** One result row of `get_day_stats`, keyed by car id. */
  datatype DayStat = DayStat(mileage: Option<int>, engineSeconds: Option<int>)

  /** The cars with at least one row in the window (the groups of the GROUP BY). */
  function CarsInWindow(rows: seq<Counter>, start: int, end: int): (r: set<int>)
    ensures forall car :: car in r <==> exists i :: 0 <= i < |rows| && rows[i].carId == car
                                                    && InWindow(rows[i], start, end)
  {
    set i | 0 <= i < |rows| && InWindow(rows[i], start, end) :: rows[i].carId
  }

  /** `get_day_stats`. */
  function GetDayStats(rows: seq<Counter>, start: int, end: int): (r: map<int, DayStat>)
    ensures r.Keys == CarsInWindow(rows, start, end)
    ensures forall car :: car in r ==>
              && r[car].mileage == Spread(Mileages(rows, car, start, end))
              && r[car].engineSeconds == Spread(EngineSeconds(rows, car, start, end))
  {
    map car | car in CarsInWindow(rows, start, end) ::
      DayStat(Spread(Mileages(rows, car, start, end)), Spread(EngineSeconds(rows, car, start, end)))
  }

  /** Both differences are never negative, and each bounds the gap between any two readings of the day. */
  lemma DayStatsBounds(rows: seq<Counter>, start: int, end: int, car: int, i: int, j: int)
    requires car in GetDayStats(rows, start, end)
    requires 0 <= i < |rows| && 0 <= j < |rows|
    requires rows[i].carId == car && rows[j].carId == car
    requires InWindow(rows[i], start, end) && InWindow(rows[j], start, end)
    requires rows[i].mileage.Some? && rows[j].mileage.Some?
    ensures GetDayStats(rows, start, end)[car].mileage.Some?
    ensures 0 <= rows[i].mileage.value - rows[j].mileage.value <= GetDayStats(rows, start, end)[car].mileage.value
            || 0 <= rows[j].mileage.value - rows[i].mileage.value <= GetDayStats(rows, start, end)[car].mileage.value
  {
    var s := Mileages(rows, car, start, end);
    assert rows[i].mileage.value in s && rows[j].mileage.value in s;
  }

  /** The window's groups are those of the table without a row that lies outside it. */
  lemma CarsIgnoreOutside(rows: seq<Counter>, c: Counter, start: int, end: int)
    requires !InWindow(c, start, end)
    ensures CarsInWindow(rows + [c], start, end) == CarsInWindow(rows, start, end)
  {
    var rows' := rows + [c];
    forall car | car in CarsInWindow(rows', start, end) ensures car in CarsInWindow(rows, start, end) {
      var i :| 0 <= i < |rows'| && rows'[i].carId == car && InWindow(rows'[i], start, end);
      assert i < |rows| && rows'[i] == rows[i];
    }
    forall car | car in CarsInWindow(rows, start, end) ensures car in CarsInWindow(rows', start, end) {
      var i :| 0 <= i < |rows| && rows[i].carId == car && InWindow(rows[i], start, end);
      assert rows'[i] == rows[i];
    }
  }

  /** A row outside the window changes nothing (the window is half-open: `end` itself is outside). */
  lemma RowOutsideWindowIgnored(rows: seq<Counter>, c: Counter, start: int, end: int)
    requires !InWindow(c, start, end)
    ensures GetDayStats(rows + [c], start, end).Keys == GetDayStats(rows, start, end).Keys
    ensures forall car :: car in GetDayStats(rows, start, end) ==>
              GetDayStats(rows + [c], start, end)[car] == GetDayStats(rows, start, end)[car]
  {
    CarsIgnoreOutside(rows, c, start, end);
    forall car | car in GetDayStats(rows, start, end)
      ensures GetDayStats(rows + [c], start, end)[car] == GetDayStats(rows, start, end)[car]
    {
      ReadingsIgnoreOutside(rows, c, car, start, end);
    }
  }

  lemma ReadingsIgnoreOutside(rows: seq<Counter>, c: Counter, car: int, start: int, end: int)
    requires !InWindow(c, start, end)
    ensures Mileages(rows + [c], car, start, end) == Mileages(rows, car, start, end)
    ensures EngineSeconds(rows + [c], car, start, end) == EngineSeconds(rows, car, start, end)
  {
    assert (rows + [c])[..|rows|] == rows;
  }

  /**
   * Adding a row in the window only widens: every car keeps its result, the new row's car gets
   * one, and no difference shrinks.
   */
  lemma {:induction false} RowInWindowWidens(rows: seq<Counter>, c: Counter, start: int, end: int)
    requires InWindow(c, start, end)
    ensures var before := GetDayStats(rows, start, end);
            var after := GetDayStats(rows + [c], start, end);
            && c.carId in after
            && (forall car :: car in before ==> car in after)
            && (forall car :: car in before && before[car].mileage.Some? ==>
                  after[car].mileage.Some? && before[car].mileage.value <= after[car].mileage.value)
            && (forall car :: car in before && before[car].engineSeconds.Some? ==>
                  after[car].engineSeconds.Some? && before[car].engineSeconds.value <= after[car].engineSeconds.value)
  {
    var rows' := rows + [c];
    assert rows'[|rows'| - 1] == c;
    var before := GetDayStats(rows, start, end);
    var after := GetDayStats(rows', start, end);
    forall car | car in before
      ensures car in after
      ensures before[car].mileage.Some? ==>
                after[car].mileage.Some? && before[car].mileage.value <= after[car].mileage.value
      ensures before[car].engineSeconds.Some? ==>
                after[car].engineSeconds.Some? && before[car].engineSeconds.value <= after[car].engineSeconds.value
    {
      var i :| 0 <= i < |rows| && rows[i].carId == car && InWindow(rows[i], start, end);
      assert rows'[i] == rows[i];
      ReadingsAppend(rows, c, car, start, end);
      SpreadWidens(Mileages(rows, car, start, end),
                   if c.carId == car && InWindow(c, start, end) && c.mileage.Some? then [c.mileage.value] else []);
      SpreadWidens(EngineSeconds(rows, car, start, end),
                   if c.carId == car && InWindow(c, start, end) && c.engineSeconds.Some? then [c.engineSeconds.value] else []);
    }
  }

  /** A new last row adds its own reading, if any, at the end of its car's readings. */
  lemma ReadingsAppend(rows: seq<Counter>, c: Counter, car: int, start: int, end: int)
    ensures Mileages(rows + [c], car, start, end) == Mileages(rows, car, start, end)
              + (if c.carId == car && InWindow(c, start, end) && c.mileage.Some? then [c.mileage.value] else [])
    ensures EngineSeconds(rows + [c], car, start, end) == EngineSeconds(rows, car, start, end)
              + (if c.carId == car && InWindow(c, start, end) && c.engineSeconds.Some? then [c.engineSeconds.value] else [])
  {
    assert (rows + [c])[..|rows|] == rows;
  }

  /** More readings never shrink the difference between the largest and the smallest. */
  lemma SpreadWidens(s: seq<int>, t: seq<int>)
    ensures Spread(s).Some? ==> Spread(s + t).Some? && Spread(s).value <= Spread(s + t).value
  {
    if s != [] {
      var a, b :| a in s && b in s && a - b == Spread(s).value;
      assert a in s + t && b in s + t;
    }
  }
}
