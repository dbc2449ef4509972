/**
 * The newer revision of the REST-polled provider's adapter (monitoring_source/citypoint_source.py):
 * an object holding the token fields and an HTTP session. Every request that fails with a
 * connection-level exception replaces the session and raises an exception of the same class.
 * The session is modelled as a generation number that each replacement bumps.
 */
module MonitoringCityPoint {
  import opened Wrappers
  import opened PyBuiltins
  import opened CityPointToken

  /** The session generation after a request that raised `e`. */
  function SessionAfter(session: nat, e: Exception): (s: nat)
    ensures s == session || s == session + 1
    ensures s == session + 1 <==> IsConnectionFailure(e)
  {
    if IsConnectionFailure(e) then session + 1 else session
  }

  class CityPointSource {
    var tokenType: Option<string>
    var accessToken: Option<string>
    var refreshToken: Option<string>
    var expiresAt: Option<int>
    var userId: Option<string>
    var session: nat

    /** The token fields taken together. */
    function CurrentToken(): Token
      reads this
    {
      Token(tokenType, accessToken, refreshToken, expiresAt, userId)
    }

    constructor ()
      ensures CurrentToken() == NoToken && session == 0
    {
      tokenType := None;
      accessToken := None;
      refreshToken := None;
      expiresAt := None;
      userId := None;
      session := 0;
    }

    /** `update_token`: install the reply's token, expiring `expiresIn` seconds from `now`. */
    method UpdateToken(now: int, b: TokenBody)
      modifies this
      ensures CurrentToken() == Updated(now, b)
      ensures session == old(session)
    {
      tokenType := Some(b.tokenType);
      expiresAt := Some(now + b.expiresIn);
      accessToken := Some(b.accessToken);
      refreshToken := Some(b.refreshToken);
      userId := b.userId;
    }

    /**
     * The body `auth` and `__get_access_token` share: on a 2xx reply install the token and
     * return true; on any other reply return false and change nothing; when the request
     * raises, replace the session for a connection failure and raise.
     */
    method Grant(now: int, reply: Outcome<TokenBody>) returns (r: Result<bool, Exception>)
      modifies this
      ensures reply.Raised? ==> r == Err(reply.error) && CurrentToken() == old(CurrentToken())
                                && session == SessionAfter(old(session), reply.error)
      ensures reply.Replied? ==> r == Ok(IsSuccess(reply.status)) && session == old(session)
      ensures reply.Replied? && IsSuccess(reply.status) ==> CurrentToken() == Updated(now, reply.body)
      ensures reply.Replied? && !IsSuccess(reply.status) ==> CurrentToken() == old(CurrentToken())
    {
      match reply
      case Raised(e) =>
        session := SessionAfter(session, e);
        r := Err(e);
      case Replied(status, body) =>
        if IsSuccess(status) {
          UpdateToken(now, body);
          r := Ok(true);
        } else {
          r := Ok(false);
        }
    }

    /** `auth`: the password grant. */
    method Auth(now: int, reply: Outcome<TokenBody>) returns (r: Result<bool, Exception>)
      modifies this
      ensures reply.Raised? ==> r == Err(reply.error) && CurrentToken() == old(CurrentToken())
                                && session == SessionAfter(old(session), reply.error)
      ensures reply.Replied? ==> r == Ok(IsSuccess(reply.status)) && session == old(session)
      ensures reply.Replied? && IsSuccess(reply.status) ==> CurrentToken() == Updated(now, reply.body)
      ensures reply.Replied? && !IsSuccess(reply.status) ==> CurrentToken() == old(CurrentToken())
    {
      r := Grant(now, reply);
    }

    /** `__get_access_token`: the refresh_token grant. */
    method GetAccessToken(now: int, reply: Outcome<TokenBody>) returns (r: Result<bool, Exception>)
      modifies this
      ensures reply.Raised? ==> r == Err(reply.error) && CurrentToken() == old(CurrentToken())
                                && session == SessionAfter(old(session), reply.error)
      ensures reply.Replied? ==> r == Ok(IsSuccess(reply.status)) && session == old(session)
      ensures reply.Replied? && IsSuccess(reply.status) ==> CurrentToken() == Updated(now, reply.body)
      ensures reply.Replied? && !IsSuccess(reply.status) ==> CurrentToken() == old(CurrentToken())
    {
      r := Grant(now, reply);
    }

    /**
     * `while not self.__get_access_token(): sleep(10)`, over the attempts given. The loop stops
     * at the first attempt that is granted or raises; when every attempt given is refused, the
     * source would still be retrying.
     */
    method RefreshUntilGranted(attempts: seq<TokenAttempt>) returns (halt: Option<Halt>)
      modifies this
      ensures FirstDecisive(attempts).None? ==>
                halt == Some(StillRetrying) && CurrentToken() == old(CurrentToken()) && session == old(session)
      ensures FirstDecisive(attempts).Some? && attempts[FirstDecisive(attempts).value].reply.Raised? ==>
                var e := attempts[FirstDecisive(attempts).value].reply.error;
                halt == Some(Raise(e)) && CurrentToken() == old(CurrentToken())
                && session == SessionAfter(old(session), e)
      ensures FirstDecisive(attempts).Some? && attempts[FirstDecisive(attempts).value].reply.Replied? ==>
                var a := attempts[FirstDecisive(attempts).value];
                halt == None && CurrentToken() == Updated(a.at, a.reply.body) && session == old(session)
    {
      var i := 0;
      while i < |attempts|
        invariant 0 <= i <= |attempts|
        invariant forall j :: 0 <= j < i ==> !Decisive(attempts[j])
        invariant CurrentToken() == old(CurrentToken()) && session == old(session)
      {
        var granted := GetAccessToken(attempts[i].at, attempts[i].reply);
        if granted.Err? {
          assert FirstDecisive(attempts) == Some(i);
          return Some(Raise(granted.error));
        }
        if granted.value {
          assert FirstDecisive(attempts) == Some(i);
          return None;
        }
        i := i + 1;
      }
      halt := Some(StillRetrying);
    }

    /**
     * `get_token_if_expired` as written: it refreshes when `is_connected` is false, that is while
     * the token has not yet expired, and leaves an expired token in place.
     */
    method GetTokenIfExpiredAsWritten(now: int, attempts: seq<TokenAttempt>) returns (r: Result<bool, Halt>)
      modifies this
      ensures old(expiresAt).None? ==> r == Err(Raise(TypeError)) && CurrentToken() == old(CurrentToken())
      ensures r == Ok(false) <==> IsConnectedAsWritten(old(CurrentToken()), now) == Ok(true)
      ensures r == Ok(false) ==> CurrentToken() == old(CurrentToken()) && session == old(session)
      ensures old(expiresAt).Some? && old(expiresAt).value < now ==>
                r == Ok(false) && CurrentToken() == old(CurrentToken())
      ensures r.Ok? && r.value ==> FirstDecisive(attempts).Some?
      ensures r.Ok? && r.value ==> var a := attempts[FirstDecisive(attempts).value];
                                a.reply.Replied? && IsSuccess(a.reply.status)
                                && CurrentToken() == Updated(a.at, a.reply.body)
      ensures IsConnectedAsWritten(old(CurrentToken()), now) == Ok(false) && FirstDecisive(attempts).None? ==>
                r == Err(StillRetrying) && CurrentToken() == old(CurrentToken())
    {
      match IsConnectedAsWritten(CurrentToken(), now)
      case Err(e) =>
        r := Err(Raise(e));
      case Ok(connected) =>
        if connected {
          r := Ok(false);
        } else {
          var halt := RefreshUntilGranted(attempts);
          r := if halt.None? then Ok(true) else Err(halt.value);
        }
    }

    /**
     * `get_token_if_expired` with the intended test: a valid token is kept, any other granted
     * token is refreshed, retrying until a refresh is granted.
     */
    method GetTokenIfExpired(now: int, attempts: seq<TokenAttempt>) returns (r: Result<bool, Halt>)
      modifies this
      ensures old(expiresAt).None? ==> r == Err(Raise(TypeError)) && CurrentToken() == old(CurrentToken())
      ensures r == Ok(false) <==> Valid(old(CurrentToken()), now)
      ensures r == Ok(false) ==> CurrentToken() == old(CurrentToken()) && session == old(session)
      ensures r.Ok? && r.value ==> FirstDecisive(attempts).Some?
      ensures r.Ok? && r.value ==> var a := attempts[FirstDecisive(attempts).value];
                                a.reply.Replied? && IsSuccess(a.reply.status)
                                && CurrentToken() == Updated(a.at, a.reply.body)
      ensures r == Ok(false) ==> Valid(CurrentToken(), now)
      ensures r.Ok? && r.value ==> var a := attempts[FirstDecisive(attempts).value];
                                now <= a.at && a.reply.body.expiresIn > 0 ==> Valid(CurrentToken(), now)
    {
      match IsConnected(CurrentToken(), now)
      case Err(e) =>
        r := Err(Raise(e));
      case Ok(connected) =>
        if connected {
          r := Ok(false);
        } else {
          var halt := RefreshUntilGranted(attempts);
          r := if halt.None? then Ok(true) else Err(halt.value);
        }
    }

    /**
     * Every getter (`get_transport_list`, `get_transports`, `get_sensors`, ...): run
     * `get_token_if_expired` as written, send the header, and return the body on a 2xx reply and None otherwise; a request
     * that raises replaces the session on a connection failure and raises. `sent` is the header
     * the request carried, None when no request was made.
     */
    method Fetch<T>(now: int, attempts: seq<TokenAttempt>, reply: Outcome<T>)
      returns (r: Result<Option<T>, Halt>, sent: Option<map<string, string>>)
      modifies this
      ensures sent.Some? ==> sent.value == Header(CurrentToken())
      ensures sent.None? ==> r.Err?
      ensures sent.Some? && reply.Replied? ==> r == Ok(BodyIfSuccess(reply.status, reply.body))
      ensures sent.Some? && reply.Raised? ==> r == Err(Raise(reply.error))
      ensures IsConnectedAsWritten(old(CurrentToken()), now) == Ok(true) ==>
                sent == Some(Header(old(CurrentToken()))) && CurrentToken() == old(CurrentToken())
                && session == (if reply.Raised? then SessionAfter(old(session), reply.error) else old(session))
      ensures IsConnectedAsWritten(old(CurrentToken()), now) == Ok(false) && sent.Some? ==>
                FirstDecisive(attempts).Some?
                && var a := attempts[FirstDecisive(attempts).value];
                   && a.reply.Replied? && IsSuccess(a.reply.status)
                   && CurrentToken() == Updated(a.at, a.reply.body) && sent == Some(Header(Updated(a.at, a.reply.body)))
      ensures old(expiresAt).Some? && old(expiresAt).value < now ==> sent == Some(Header(old(CurrentToken())))
    {
      var ready := GetTokenIfExpiredAsWritten(now, attempts);
      if ready.Err? {
        return Err(ready.error), None;
      }
      sent := Some(Header(CurrentToken()));
      match reply
      case Raised(e) =>
        session := SessionAfter(session, e);
        r := Err(Raise(e));
      case Replied(status, body) =>
        r := Ok(BodyIfSuccess(status, body));
    }

    /**
     * The getters as intended: the same request built on the corrected `get_token_if_expired`,
     * so a valid token is sent as it is and any other is refreshed first.
     */
    method FetchIntended<T>(now: int, attempts: seq<TokenAttempt>, reply: Outcome<T>)
      returns (r: Result<Option<T>, Halt>, sent: Option<map<string, string>>)
      modifies this
      ensures sent.Some? ==> sent.value == Header(CurrentToken())
      ensures sent.None? ==> r.Err?
      ensures sent.Some? && reply.Replied? ==> r == Ok(BodyIfSuccess(reply.status, reply.body))
      ensures sent.Some? && reply.Raised? ==> r == Err(Raise(reply.error))
      ensures Valid(old(CurrentToken()), now) ==>
                sent == Some(Header(old(CurrentToken())))
                && CurrentToken() == old(CurrentToken())
                && session == (if reply.Raised? then SessionAfter(old(session), reply.error) else old(session))
      ensures !Valid(old(CurrentToken()), now) && sent.Some? ==>
                FirstDecisive(attempts).Some?
                && var a := attempts[FirstDecisive(attempts).value];
                   && a.reply.Replied? && IsSuccess(a.reply.status)
                   && CurrentToken() == Updated(a.at, a.reply.body) && sent == Some(Header(Updated(a.at, a.reply.body)))
    {
      var ready := GetTokenIfExpired(now, attempts);
      if ready.Err? {
        return Err(ready.error), None;
      }
      sent := Some(Header(CurrentToken()));
      match reply
      case Raised(e) =>
        session := SessionAfter(session, e);
        r := Err(Raise(e));
      case Replied(status, body) =>
        r := Ok(BodyIfSuccess(status, body));
    }
  }
}
