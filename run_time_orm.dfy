/** The run-time log (database/queries/run_time_orm.py): append-only, newest by id. */
module RunTimeQueries {
  import opened Wrappers
  import opened Repository

  /** `get_last_runtime`: the row with the largest id, or None for an empty table. */
  function GetLastRuntime(rows: seq<RunTime>): (r: Option<RunTime>)
    ensures r.None? <==> rows == []
    ensures r.Some? ==> r.value in rows && forall x :: x in rows ==> x.id <= r.value.id
  {
    if rows == [] then None
    else
      var init := rows[..|rows| - 1];
      var last := rows[|rows| - 1];
      assert rows == init + [last];
      var prev := GetLastRuntime(init);
      if prev.Some? && prev.value.id > last.id then prev else Some(last)
  }

  /** With ids handed out in increasing order, the newest row is the last one appended. */
  lemma LastRuntimeIsLastRow(rows: seq<RunTime>, next: int)
    requires RunTimeIdsOrdered(rows, next) && rows != []
    ensures GetLastRuntime(rows) == Some(rows[|rows| - 1])
  {
    var r := GetLastRuntime(rows).value;
    var i :| 0 <= i < |rows| && rows[i] == r;
    assert i == |rows| - 1;
  }

  /** `create_runtime`: one row appended with the next id; existing rows untouched. */
  method CreateRuntime(db: Database, startTs: int, endTs: int)
    requires db.Valid()
    modifies db`runTimes, db`nextRunTimeId
    ensures db.Valid()
    ensures db.runTimes == old(db.runTimes) + [RunTime(old(db.nextRunTimeId), startTs, endTs)]
    ensures GetLastRuntime(db.runTimes) == Some(RunTime(old(db.nextRunTimeId), startTs, endTs))
  {
    db.runTimes := db.runTimes + [RunTime(db.nextRunTimeId, startTs, endTs)];
    db.nextRunTimeId := db.nextRunTimeId + 1;
    LastRuntimeIsLastRow(db.runTimes, db.nextRunTimeId);
  }
}
