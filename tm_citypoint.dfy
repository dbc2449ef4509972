/**
 * The older revision of the REST-polled provider's adapter (tm_source/citypoint_source.py), the
 * one the entry point runs: the same token fields, no session object, and no exception handling,
 * so an exception raised by a request propagates with nothing changed. Its refresh returns True
 * on success and None (not False) otherwise.
 */
module TmCityPoint {
  import opened Wrappers
  import opened PyBuiltins
  import opened CityPointToken

  class CityPointSource {
    var tokenType: Option<string>
    var accessToken: Option<string>
    var refreshToken: Option<string>
    var expiresAt: Option<int>
    var userId: Option<string>

    /** The token fields taken together. */
    function CurrentToken(): Token
      reads this
    {
      Token(tokenType, accessToken, refreshToken, expiresAt, userId)
    }

    constructor ()
      ensures CurrentToken() == NoToken
    {
      tokenType := None;
      accessToken := None;
      refreshToken := None;
      expiresAt := None;
      userId := None;
    }

    /** `update_token`: install the reply's token, expiring `expiresIn` seconds from `now`. */
    method UpdateToken(now: int, b: TokenBody)
      modifies this
      ensures CurrentToken() == Updated(now, b)
    {
      tokenType := Some(b.tokenType);
      expiresAt := Some(now + b.expiresIn);
      accessToken := Some(b.accessToken);
      refreshToken := Some(b.refreshToken);
      userId := b.userId;
    }

    /** `auth`: True and the new token on a 2xx reply, False and nothing changed otherwise. */
    method Auth(now: int, reply: Outcome<TokenBody>) returns (r: Result<bool, Exception>)
      modifies this
      ensures reply.Raised? ==> r == Err(reply.error) && CurrentToken() == old(CurrentToken())
      ensures reply.Replied? ==> r == Ok(IsSuccess(reply.status))
      ensures reply.Replied? && IsSuccess(reply.status) ==> CurrentToken() == Updated(now, reply.body)
      ensures reply.Replied? && !IsSuccess(reply.status) ==> CurrentToken() == old(CurrentToken())
    {
      match reply
      case Raised(e) =>
        r := Err(e);
      case Replied(status, body) =>
        if IsSuccess(status) {
          UpdateToken(now, body);
          r := Ok(true);
        } else {
          r := Ok(false);
        }
    }

    /** `get_access_token`: True and the new token on a 2xx reply, None and nothing changed otherwise. */
    method GetAccessToken(now: int, reply: Outcome<TokenBody>) returns (r: Result<Option<bool>, Exception>)
      modifies this
      ensures reply.Raised? ==> r == Err(reply.error) && CurrentToken() == old(CurrentToken())
      ensures reply.Replied? && IsSuccess(reply.status) ==>
                r == Ok(Some(true)) && CurrentToken() == Updated(now, reply.body)
      ensures reply.Replied? && !IsSuccess(reply.status) ==>
                r == Ok(None) && CurrentToken() == old(CurrentToken())
    {
      match reply
      case Raised(e) =>
        r := Err(e);
      case Replied(status, body) =>
        if IsSuccess(status) {
          UpdateToken(now, body);
          r := Ok(Some(true));
        } else {
          r := Ok(None);
        }
    }

    /**
     * `while not self.get_access_token(): sleep(10)` over the attempts given: None is falsy, so
     * a refused refresh is retried; the loop stops at the first grant or exception.
     */
    method RefreshUntilGranted(attempts: seq<TokenAttempt>) returns (halt: Option<Halt>)
      modifies this
      ensures FirstDecisive(attempts).None? ==>
                halt == Some(StillRetrying) && CurrentToken() == old(CurrentToken())
      ensures FirstDecisive(attempts).Some? && attempts[FirstDecisive(attempts).value].reply.Raised? ==>
                halt == Some(Raise(attempts[FirstDecisive(attempts).value].reply.error))
                && CurrentToken() == old(CurrentToken())
      ensures FirstDecisive(attempts).Some? && attempts[FirstDecisive(attempts).value].reply.Replied? ==>
                var a := attempts[FirstDecisive(attempts).value];
                halt == None && CurrentToken() == Updated(a.at, a.reply.body)
    {
      var i := 0;
      while i < |attempts|
        invariant 0 <= i <= |attempts|
        invariant forall j :: 0 <= j < i ==> !Decisive(attempts[j])
        invariant CurrentToken() == old(CurrentToken())
      {
        var granted := GetAccessToken(attempts[i].at, attempts[i].reply);
        if granted.Err? {
          assert FirstDecisive(attempts) == Some(i);
          return Some(Raise(granted.error));
        }
        if granted.value == Some(true) {
          assert FirstDecisive(attempts) == Some(i);
          return None;
        }
        i := i + 1;
      }
      halt := Some(StillRetrying);
    }

    /** `get_token_if_expired` as written: refreshes only while the token has not yet expired. */
    method GetTokenIfExpiredAsWritten(now: int, attempts: seq<TokenAttempt>) returns (r: Result<bool, Halt>)
      modifies this
      ensures old(expiresAt).None? ==> r == Err(Raise(TypeError)) && CurrentToken() == old(CurrentToken())
      ensures r == Ok(false) <==> IsConnectedAsWritten(old(CurrentToken()), now) == Ok(true)
      ensures old(expiresAt).Some? && old(expiresAt).value < now ==>
                r == Ok(false) && CurrentToken() == old(CurrentToken())
      ensures r.Ok? && r.value ==> FirstDecisive(attempts).Some?
      ensures r.Ok? && r.value ==> var a := attempts[FirstDecisive(attempts).value];
                                a.reply.Replied? && IsSuccess(a.reply.status)
                                && CurrentToken() == Updated(a.at, a.reply.body)
      ensures IsConnectedAsWritten(old(CurrentToken()), now) == Ok(false) && FirstDecisive(attempts).None? ==>
                r == Err(StillRetrying) && CurrentToken() == old(CurrentToken())
    {
      match IsConnectedAsWritten(CurrentToken(), now)
      case Err(e) =>
        r := Err(Raise(e));
      case Ok(connected) =>
        if connected {
          r := Ok(false);
        } else {
          var halt := RefreshUntilGranted(attempts);
          r := if halt.None? then Ok(true) else Err(halt.value);
        }
    }

    /** `get_token_if_expired` with the intended test: a valid token is kept, any other is refreshed. */
    method GetTokenIfExpired(now: int, attempts: seq<TokenAttempt>) returns (r: Result<bool, Halt>)
      modifies this
      ensures old(expiresAt).None? ==> r == Err(Raise(TypeError)) && CurrentToken() == old(CurrentToken())
      ensures r == Ok(false) <==> Valid(old(CurrentToken()), now)
      ensures r == Ok(false) ==> CurrentToken() == old(CurrentToken()) && Valid(CurrentToken(), now)
      ensures r.Ok? && r.value ==> FirstDecisive(attempts).Some?
      ensures r.Ok? && r.value ==> var a := attempts[FirstDecisive(attempts).value];
                                a.reply.Replied? && IsSuccess(a.reply.status)
                                && CurrentToken() == Updated(a.at, a.reply.body)
    {
      match IsConnected(CurrentToken(), now)
      case Err(e) =>
        r := Err(Raise(e));
      case Ok(connected) =>
        if connected {
          r := Ok(false);
        } else {
          var halt := RefreshUntilGranted(attempts);
          r := if halt.None? then Ok(true) else Err(halt.value);
        }
    }

    /**
     * Every getter: run `get_token_if_expired` as written, send the header, return the body on a
     * 2xx reply and None otherwise; a request that raises propagates. `sent` is the header the request
     * carried, None when no request was made.
     */
    method Fetch<T>(now: int, attempts: seq<TokenAttempt>, reply: Outcome<T>)
      returns (r: Result<Option<T>, Halt>, sent: Option<map<string, string>>)
      modifies this
      ensures sent.Some? ==> sent.value == Header(CurrentToken())
      ensures sent.None? ==> r.Err?
      ensures sent.Some? && reply.Replied? ==> r == Ok(BodyIfSuccess(reply.status, reply.body))
      ensures sent.Some? && reply.Raised? ==> r == Err(Raise(reply.error))
      ensures IsConnectedAsWritten(old(CurrentToken()), now) == Ok(true) ==>
                sent == Some(Header(old(CurrentToken()))) && CurrentToken() == old(CurrentToken())
      ensures IsConnectedAsWritten(old(CurrentToken()), now) == Ok(false) && sent.Some? ==>
                FirstDecisive(attempts).Some?
                && var a := attempts[FirstDecisive(attempts).value];
                   && a.reply.Replied? && IsSuccess(a.reply.status)
                   && CurrentToken() == Updated(a.at, a.reply.body) && sent == Some(Header(Updated(a.at, a.reply.body)))
      ensures old(expiresAt).Some? && old(expiresAt).value < now ==> sent == Some(Header(old(CurrentToken())))
    {
      var ready := GetTokenIfExpiredAsWritten(now, attempts);
      if ready.Err? {
        return Err(ready.error), None;
      }
      sent := Some(Header(CurrentToken()));
      match reply
      case Raised(e) =>
        r := Err(Raise(e));
      case Replied(status, body) =>
        r := Ok(BodyIfSuccess(status, body));
    }

    /**
     * The getters as intended: the same request built on the corrected `get_token_if_expired`,
     * so a valid token is sent as it is and any other is refreshed first.
     */
    method FetchIntended<T>(now: int, attempts: seq<TokenAttempt>, reply: Outcome<T>)
      returns (r: Result<Option<T>, Halt>, sent: Option<map<string, string>>)
      modifies this
      ensures sent.Some? ==> sent.value == Header(CurrentToken())
      ensures sent.None? ==> r.Err?
      ensures sent.Some? && reply.Replied? ==> r == Ok(BodyIfSuccess(reply.status, reply.body))
      ensures sent.Some? && reply.Raised? ==> r == Err(Raise(reply.error))
      ensures Valid(old(CurrentToken()), now) ==>
                sent == Some(Header(old(CurrentToken()))) && CurrentToken() == old(CurrentToken())
      ensures !Valid(old(CurrentToken()), now) && sent.Some? ==>
                FirstDecisive(attempts).Some?
                && var a := attempts[FirstDecisive(attempts).value];
                   && a.reply.Replied? && IsSuccess(a.reply.status)
                   && CurrentToken() == Updated(a.at, a.reply.body) && sent == Some(Header(Updated(a.at, a.reply.body)))
    {
      var ready := GetTokenIfExpired(now, attempts);
      if ready.Err? {
        return Err(ready.error), None;
      }
      sent := Some(Header(CurrentToken()));
      match reply
      case Raised(e) =>
        r := Err(Raise(e));
      case Replied(status, body) =>
        r := Ok(BodyIfSuccess(status, body));
    }
  }
}
