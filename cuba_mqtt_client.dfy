/**
 * The sink's MQTT gateway client (destinations/cuba_mqtt_client.py): the publish-result rule and
 * the flush of the buffered-state table. The broker's answer to each publish is an oracle: the
 * sequence of result codes the attempts receive, in order.
 */
module CubaMqttClient {
  import opened Wrappers
  import opened Repository
  import opened CarQueries
  import opened CarStateQueries

  /** The publish result code that means success. */
  const TB_ERR_SUCCESS := 0

  /** One publish of the flush: the car, its device name, the table before it, the page sent, the outcome. */
  datatype Attempt = Attempt(carId: int, device: string, before: seq<CarState>, batch: seq<CarState>, ok: bool)

  /** How a flush ended: every listed car drained, a car without a device name, or no more broker answers. */
  datatype FlushStatus = Done | MissingDevice(carId: int) | OutOfAttempts

  /** The table after replaying the attempts: each successful page deleted, failed ones leave it as it was. */
  function Replay(start: seq<CarState>, log: seq<Attempt>): seq<CarState> {
    if log == [] then start
    else
      var prev := Replay(start, log[..|log| - 1]);
      var a := log[|log| - 1];
      if a.ok then RemoveIds(prev, IdsOf(a.batch)) else prev
  }

  /** The ids of the pages whose publish succeeded. */
  function SentIds(log: seq<Attempt>): (r: set<int>)
    ensures forall i :: 0 <= i < |log| && log[i].ok ==> IdsOf(log[i].batch) <= r
  {
    if log == [] then {}
    else
      var prev := SentIds(log[..|log| - 1]);
      var a := log[|log| - 1];
      assert forall i :: 0 <= i < |log| - 1 ==> log[..|log| - 1][i] == log[i];
      if a.ok then prev + IdsOf(a.batch) else prev
  }

  /** Replaying the attempts removes exactly the rows of successful pages. */
  lemma {:induction false} ReplayRemovesSent(start: seq<CarState>, log: seq<Attempt>)
    ensures Replay(start, log) == RemoveIds(start, SentIds(log))
  {
    if log == [] {
      RemoveNothing(start);
    } else {
      var init := log[..|log| - 1];
      var a := log[|log| - 1];
      ReplayRemovesSent(start, init);
      if a.ok {
        RemoveIdsTwice(start, SentIds(init), IdsOf(a.batch));
      } else {
        assert Replay(start, log) == Replay(start, init);
        assert SentIds(log) == SentIds(init);
      }
    }
  }

  /** A row is gone after the flush only if a page holding its id was published successfully. */
  lemma NoDeleteWithoutSuccess(start: seq<CarState>, log: seq<Attempt>, x: CarState)
    requires x in start && x !in Replay(start, log)
    ensures x.id in SentIds(log)
  {
    ReplayRemovesSent(start, log);
    RemoveIdsMembers(start, SentIds(log));
  }

  /** `send_data`: the publish is successful iff its result code is TB_ERR_SUCCESS. */
  function SendData(rc: int): (ok: bool)
    ensures ok <==> rc == TB_ERR_SUCCESS
  {
    rc == TB_ERR_SUCCESS
  }

  lemma NonEmptyHasMember(s: set<int>)
    requires s != {}
    ensures exists x :: x in s
  {
    assert (forall x :: x !in s) ==> s == {};
  }

  /**
   * Attempt `i` of a flush that started from table `start` is what the loop does: it publishes the
   * car's current oldest page (never an empty one) to the car's device, and its outcome is the
   * broker's `i`-th answer.
   */
  ghost predicate AttemptFaithful(start: seq<CarState>, log: seq<Attempt>, rcs: seq<int>, devices: map<int, string>, i: int)
    requires 0 <= i < |log| && |log| <= |rcs|
  {
    && log[i].before == Replay(start, log[..i])
    && log[i].ok == SendData(rcs[i])
    && log[i].batch == HistoryData(log[i].before, log[i].carId)
    && log[i].batch != []
    && log[i].carId in devices
    && log[i].device == devices[log[i].carId]
  }

  /** When attempt `i` failed, attempt `i + 1` retries the same page of the same car. */
  ghost predicate RetriedAfter(log: seq<Attempt>, i: int)
    requires 0 <= i < |log| - 1
  {
    !log[i].ok ==> log[i + 1].carId == log[i].carId && log[i + 1].batch == log[i].batch
  }

  /** Every attempt is faithful, and a failed attempt is followed by a retry of the same page of the same car. */
  ghost predicate WellLogged(start: seq<CarState>, log: seq<Attempt>, rcs: seq<int>, devices: map<int, string>) {
    && |log| <= |rcs|
    && (forall i :: 0 <= i < |log| ==> AttemptFaithful(start, log, rcs, devices, i))
    && (forall i :: 0 <= i < |log| - 1 ==> RetriedAfter(log, i))
  }

  /** A new attempt made as the loop makes it keeps the log well formed. */
  lemma ExtendLog(start: seq<CarState>, log: seq<Attempt>, rcs: seq<int>, devices: map<int, string>, a: Attempt)
    requires WellLogged(start, log, rcs, devices) && |log| < |rcs|
    requires a.before == Replay(start, log) && a.ok == SendData(rcs[|log|])
    requires a.batch == HistoryData(a.before, a.carId) && a.batch != []
    requires a.carId in devices && a.device == devices[a.carId]
    requires log != [] && !log[|log| - 1].ok ==> a.carId == log[|log| - 1].carId
    ensures WellLogged(start, log + [a], rcs, devices)
  {
    var log' := log + [a];
    ExtendFaithful(start, log, rcs, devices, a);
    forall i | 0 <= i < |log'| - 1 ensures RetriedAfter(log', i) {
      assert log'[i] == log[i];
      if i < |log| - 1 {
        assert RetriedAfter(log, i);
        assert log'[i + 1] == log[i + 1];
      } else if !log[i].ok {
        assert AttemptFaithful(start, log, rcs, devices, i);
        RetrySamePage(start, log, a);
      }
    }
  }

  /** Every attempt of the extended log is still faithful. */
  lemma ExtendFaithful(start: seq<CarState>, log: seq<Attempt>, rcs: seq<int>, devices: map<int, string>, a: Attempt)
    requires WellLogged(start, log, rcs, devices) && |log| < |rcs|
    requires a.before == Replay(start, log) && a.ok == SendData(rcs[|log|])
    requires a.batch == HistoryData(a.before, a.carId) && a.batch != []
    requires a.carId in devices && a.device == devices[a.carId]
    ensures forall i :: 0 <= i < |log| + 1 ==> AttemptFaithful(start, log + [a], rcs, devices, i)
  {
    var log' := log + [a];
    assert log'[..|log|] == log;
    forall i | 0 <= i < |log'| ensures AttemptFaithful(start, log', rcs, devices, i) {
      if i < |log| {
        assert log'[..i] == log[..i];
        assert AttemptFaithful(start, log, rcs, devices, i);
      }
    }
  }

  /** After a failed attempt, the next page of the same car is the page that failed. */
  lemma RetrySamePage(start: seq<CarState>, log: seq<Attempt>, a: Attempt)
    requires log != [] && !log[|log| - 1].ok
    requires log[|log| - 1].before == Replay(start, log[..|log| - 1])
    requires log[|log| - 1].batch == HistoryData(log[|log| - 1].before, log[|log| - 1].carId)
    requires a.before == Replay(start, log) && a.carId == log[|log| - 1].carId
    requires a.batch == HistoryData(a.before, a.carId)
    ensures a.batch == log[|log| - 1].batch
  {
    var k := |log| - 1;
    assert log == log[..k] + [log[k]];
    ReplayStep(start, log[..k], log[k]);
  }

  /** Replaying one more attempt. */
  lemma ReplayStep(start: seq<CarState>, log: seq<Attempt>, a: Attempt)
    ensures Replay(start, log + [a]) == if a.ok then RemoveIds(Replay(start, log), IdsOf(a.batch)) else Replay(start, log)
  {
    assert (log + [a])[..|log|] == log;
  }

  /** A failed last attempt leaves its page in the table, so the car's page is not empty yet. */
  lemma FailedPageStaysPending(start: seq<CarState>, log: seq<Attempt>, rcs: seq<int>, devices: map<int, string>)
    requires WellLogged(start, log, rcs, devices) && log != [] && !log[|log| - 1].ok
    ensures HistoryData(Replay(start, log), log[|log| - 1].carId) == log[|log| - 1].batch != []
  {
    var k := |log| - 1;
    assert AttemptFaithful(start, log, rcs, devices, k);
    assert log[..k] == log[..|log| - 1];
  }

  class Client {
    /** Device names by car id, read once when the client is built. */
    var transportMap: map<int, string>

    constructor (db: Database)
      ensures transportMap == GetAllTransportNames(db.cars)
    {
      transportMap := GetAllTransportNames(db.cars);
    }

    /** One pass of the inner loop: publish the page, delete it if and only if the publish succeeded, refetch. */
    method PublishOnce(db: Database, id: int, device: string, rcs: seq<int>, ghost start: seq<CarState>,
                       log: seq<Attempt>, data: seq<CarState>)
      returns (log': seq<Attempt>, data': seq<CarState>)
      requires db.Valid() && id in transportMap && device == transportMap[id]
      requires WellLogged(start, log, rcs, transportMap) && |log| < |rcs|
      requires db.carStates == Replay(start, log)
      requires data == HistoryData(db.carStates, id) && data != []
      requires log != [] && !log[|log| - 1].ok ==> log[|log| - 1].carId == id
      modifies db`carStates
      ensures db.Valid()
      ensures log' == log + [Attempt(id, device, old(db.carStates), data, SendData(rcs[|log|]))]
      ensures WellLogged(start, log', rcs, transportMap)
      ensures db.carStates == Replay(start, log')
      ensures forall d :: HistoryData(old(db.carStates), d) == [] ==> HistoryData(db.carStates, d) == []
      ensures data' == HistoryData(db.carStates, id)
      ensures data' == [] ==> log'[|log'| - 1].ok
    {
      var ok := SendData(rcs[|log|]);
      var a := Attempt(id, device, db.carStates, data, ok);
      ExtendLog(start, log, rcs, transportMap, a);
      ReplayStep(start, log, a);
      log' := log + [a];
      if ok {
        RemoveIdsMembers(db.carStates, IdsOf(data));
        DeleteCarStates(db, data);
      }
      forall d | HistoryData(old(db.carStates), d) == [] ensures HistoryData(db.carStates, d) == [] {
      }
      data' := HistoryData(db.carStates, id);
    }

    /**
     * The inner loop of `send_history_data` for one car: while the car has buffered rows, publish
     * its oldest page and delete the page if and only if the publish succeeded. It stops early
     * only when the broker's answers run out.
     */
    method DrainCar(db: Database, id: int, rcs: seq<int>, ghost start: seq<CarState>, log0: seq<Attempt>)
      returns (log: seq<Attempt>, exhausted: bool)
      requires db.Valid() && id in transportMap
      requires WellLogged(start, log0, rcs, transportMap)
      requires db.carStates == Replay(start, log0)
      requires log0 != [] ==> log0[|log0| - 1].ok
      modifies db`carStates
      ensures db.Valid()
      ensures WellLogged(start, log, rcs, transportMap)
      ensures db.carStates == Replay(start, log)
      ensures forall d :: HistoryData(old(db.carStates), d) == [] ==> HistoryData(db.carStates, d) == []
      ensures exhausted ==> |log| == |rcs|
      ensures !exhausted ==> HistoryData(db.carStates, id) == []
      ensures !exhausted && log != [] ==> log[|log| - 1].ok
    {
      log := log0;
      var device := transportMap[id];
      var data := HistoryData(db.carStates, id);
      while data != [] && |log| < |rcs|
        invariant db.Valid()
        invariant data == HistoryData(db.carStates, id)
        invariant WellLogged(start, log, rcs, transportMap)
        invariant db.carStates == Replay(start, log)
        invariant forall d :: HistoryData(old(db.carStates), d) == [] ==> HistoryData(db.carStates, d) == []
        invariant log != [] && !log[|log| - 1].ok ==> log[|log| - 1].carId == id
        decreases |rcs| - |log|
      {
        log, data := PublishOnce(db, id, device, rcs, start, log, data);
      }
      exhausted := data != [];
      if !exhausted && log != [] && !log[|log| - 1].ok {
        FailedPageStaysPending(start, log, rcs, transportMap);
        assert false;
      }
    }

    /**
     * `send_history_data`. For every car of the table, in some order: look up its device name
     * (a missing one raises), then drain the car's buffer page by page.
     */
    method SendHistoryData(db: Database, rcs: seq<int>) returns (status: FlushStatus, log: seq<Attempt>)
      requires db.Valid()
      modifies db`carStates
      ensures db.Valid()
      ensures WellLogged(old(db.carStates), log, rcs, transportMap)
      ensures db.carStates == Replay(old(db.carStates), log)
      ensures status.OutOfAttempts? ==> |log| == |rcs|
      ensures status.MissingDevice? ==>
                status.carId in GetTransportIds(db.cars, None) && status.carId !in transportMap
      ensures status.Done? ==>
                forall id, x :: id in GetTransportIds(db.cars, None) && x in db.carStates ==> x.state.carId != id
    {
      ghost var start := db.carStates;
      var remaining := GetTransportIds(db.cars, None);
      ghost var drained: set<int> := {};
      log := [];
      while remaining != {}
        invariant remaining + drained == GetTransportIds(db.cars, None)
        invariant db.Valid()
        invariant WellLogged(start, log, rcs, transportMap)
        invariant db.carStates == Replay(start, log)
        invariant log != [] ==> log[|log| - 1].ok
        invariant forall d :: d in drained ==> HistoryData(db.carStates, d) == []
        decreases remaining
      {
        NonEmptyHasMember(remaining);
        var id :| id in remaining;
        if id !in transportMap {
          return MissingDevice(id), log;
        }
        var exhausted;
        log, exhausted := DrainCar(db, id, rcs, start, log);
        if exhausted {
          return OutOfAttempts, log;
        }
        remaining := remaining - {id};
        drained := drained + {id};
      }
      status := Done;
    }
  }
}
