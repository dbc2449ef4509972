/**
 * What both connectors do the same way: the in-memory vehicle map rebuilt from each vehicle
 * list (`load_transport_in_memory`), and the authentication loop that starts them (`start_loop`).
 */
module ConnectorCommon {
  import opened Wrappers
  import opened PyBuiltins
  import opened Repository
  import opened CityPointToken
  import opened TelemetryTransport

  /**
   * `{str(t['id']): t for t in transports}`: one entry per id, and when an id occurs twice the
   * later item replaces the earlier one. Ids are whole numbers here, and `str` is injective on
   * them, so the map is keyed by the number itself.
   */
  function IndexLastWins<T>(items: seq<T>, key: T -> int): (r: map<int, T>)
    ensures r.Keys == KeysOf(items, key)
  {
    if items == [] then map[]
    else
      var init := items[..|items| - 1];
      var last := items[|items| - 1];
      var prev := IndexLastWins(init, key);
      assert KeysOf(items, key) == KeysOf(init, key) + {key(last)} by {
        forall k | k in KeysOf(items, key) ensures k in KeysOf(init, key) + {key(last)} {
          var i :| 0 <= i < |items| && key(items[i]) == k;
          if i < |init| {
            assert init[i] == items[i];
          }
        }
        forall k | k in KeysOf(init, key) ensures k in KeysOf(items, key) {
          var i :| 0 <= i < |init| && key(init[i]) == k;
          assert items[i] == init[i];
        }
      }
      prev[key(last) := last]
  }

  /** The entry for an id is the last item carrying it. */
  lemma {:induction false} LastOccurrenceWins<T>(items: seq<T>, key: T -> int, i: int)
    requires 0 <= i < |items|
    requires forall j :: i < j < |items| ==> key(items[j]) != key(items[i])
    ensures key(items[i]) in IndexLastWins(items, key)
    ensures IndexLastWins(items, key)[key(items[i])] == items[i]
  {
    var last := |items| - 1;
    if i < last {
      var init := items[..last];
      assert init[i] == items[i];
      assert forall j :: i < j < |init| ==> init[j] == items[j];
      LastOccurrenceWins(init, key, i);
    }
  }

  /** Every entry is one of the items, under its own key. */
  lemma {:induction false} EntriesAreItems<T>(items: seq<T>, key: T -> int)
    ensures forall k :: k in IndexLastWins(items, key) ==>
              key(IndexLastWins(items, key)[k]) == k && IndexLastWins(items, key)[k] in items
  {
    if items != [] {
      var init := items[..|items| - 1];
      EntriesAreItems(init, key);
      assert forall x :: x in init ==> x in items;
    }
  }

  /** The messages a pass hands to the destination, one per sample, in order. */
  function Messages(ts: seq<Transport>): (m: seq<(string, Envelope)>)
    ensures |m| == |ts|
    ensures forall k :: 0 <= k < |ts| ==> m[k] == FormMqttMessage(ts[k])
  {
    if ts == [] then [] else Messages(ts[..|ts| - 1]) + [FormMqttMessage(ts[|ts| - 1])]
  }

  /** Appending a sample appends its message. */
  lemma MessagesAppend(ts: seq<Transport>, t: Transport)
    ensures Messages(ts + [t]) == Messages(ts) + [FormMqttMessage(t)]
  {
    assert (ts + [t])[..|ts|] == ts;
  }

  // ---------------------------------------------------------------------------------------
  // `while not self.source.auth(): sleep(10)`

  /** The attempt the authentication loop stops at: the first that raises or succeeds. */
  function FirstAccepted(auths: seq<Result<bool, Exception>>): (k: Option<nat>)
    ensures k.Some? ==> k.value < |auths| && auths[k.value] != Ok(false)
    ensures k.Some? ==> forall j :: 0 <= j < k.value ==> auths[j] == Ok(false)
    ensures k.None? <==> forall j :: 0 <= j < |auths| ==> auths[j] == Ok(false)
  {
    if auths == [] then None
    else if auths[0] != Ok(false) then Some(0)
    else
      var rest := FirstAccepted(auths[1..]);
      assert forall j :: 1 <= j < |auths| ==> auths[j] == auths[1..][j - 1];
      if rest.Some? then Some(rest.value + 1) else None
  }

  /**
   * The authentication loop of `start_loop`, over the results of the attempts given: it returns
   * the number of attempts made once one succeeds, propagates an exception, and otherwise would
   * still be retrying.
   */
  method AwaitAuth(auths: seq<Result<bool, Exception>>) returns (r: Result<nat, Halt>)
    ensures FirstAccepted(auths).None? <==> r == Err(StillRetrying)
    ensures r.Ok? ==> 1 <= r.value <= |auths| && auths[r.value - 1] == Ok(true)
                      && forall j :: 0 <= j < r.value - 1 ==> auths[j] == Ok(false)
    ensures r.Err? && r.error.Raise? ==>
              exists k :: 0 <= k < |auths| && auths[k] == Err(r.error.error)
                          && forall j :: 0 <= j < k ==> auths[j] == Ok(false)
  {
    var i := 0;
    while i < |auths|
      invariant 0 <= i <= |auths|
      invariant forall j :: 0 <= j < i ==> auths[j] == Ok(false)
    {
      match auths[i]
      case Err(e) =>
        return Err(Raise(e));
      case Ok(ok) =>
        if ok {
          return Ok(i + 1);
        }
      i := i + 1;
    }
    r := Err(StillRetrying);
  }
}
