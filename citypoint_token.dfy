/**
 * The token rules both revisions of the REST-polled provider's adapter share
 * (monitoring_source/citypoint_source.py and tm_source/citypoint_source.py): the token a
 * successful password or refresh_token grant (sections 4.3 and 6 of RFC 6749) installs, the
 * success rule for replies, the request header, and the expiry test.
 *
 * The clock is whole seconds. The decoded `user_id` claim of the access token is part of the
 * reply body here, since decoding the token is not modelled.
 */
module CityPointToken {
  import opened Wrappers
  import opened PyBuiltins

  /** The fields of a successful token reply, and the `user_id` claim its access token carries. */
  datatype TokenBody = TokenBody(
    tokenType: string,
    accessToken: string,
    refreshToken: string,
    expiresIn: int,
    userId: Option<string>)

  /** The adapter's token fields; all are None before the first successful grant. */
  datatype Token = Token(
    tokenType: Option<string>,
    accessToken: Option<string>,
    refreshToken: Option<string>,
    expiresAt: Option<int>,
    userId: Option<string>)

  const NoToken := Token(None, None, None, None, None)

  /** What an HTTP call gives back: an exception raised by the transport, or a status and a body. */
  datatype Outcome<T> = Raised(error: Exception) | Replied(status: int, body: T)

  /** The exceptions the newer revision catches around every request; it then replaces its session. */
  predicate IsConnectionFailure(e: Exception) {
    e == ConnectionError || e == NameResolutionError || e == TimeoutError || e == RemoteDisconnected
  }

  /** The success rule of every call: a status in [200, 300). */
  predicate IsSuccess(status: int) {
    200 <= status < 300
  }

  /** `update_token`: every field is replaced from the reply; the expiry is the clock plus the lifetime. */
  function Updated(now: int, b: TokenBody): (t: Token)
    ensures t.expiresAt == Some(now + b.expiresIn)
    ensures t.tokenType == Some(b.tokenType) && t.accessToken == Some(b.accessToken)
    ensures t.refreshToken == Some(b.refreshToken) && t.userId == b.userId
  {
    Token(Some(b.tokenType), Some(b.accessToken), Some(b.refreshToken), Some(now + b.expiresIn), b.userId)
  }

  /** An update depends only on the reply and the clock, never on the token it replaces. */
  lemma UpdateForgetsOldToken(now: int, b1: TokenBody, b2: TokenBody)
    ensures Updated(now, b1) == Updated(now, b2) <==> b1 == b2
  {
  }

  /** A getter's value: the reply body on success, None otherwise. */
  function BodyIfSuccess<T>(status: int, body: T): (r: Option<T>)
    ensures r.Some? <==> IsSuccess(status)
    ensures r.Some? ==> r.value == body
  {
    if IsSuccess(status) then Some(body) else None
  }

  const AcceptKey := "Accept"
  const AuthorizationKey := "Authorization"
  const JsonApiMediaType := "application/vnd.api+json"

  /** The request header: the JSON:API media type and "{token_type} {access_token}". */
  function Header(t: Token): (h: map<string, string>)
    ensures h.Keys == {AcceptKey, AuthorizationKey}
    ensures h[AcceptKey] == JsonApiMediaType
    ensures |h[AuthorizationKey]| == |Render(t.tokenType)| + 1 + |Render(t.accessToken)|
    ensures h[AuthorizationKey][|Render(t.tokenType)|] == ' '
  {
    map[AcceptKey := JsonApiMediaType, AuthorizationKey := Render(t.tokenType) + " " + Render(t.accessToken)]
  }

  /** The first space of a string, if any. */
  function FirstSpace(s: string): (r: Option<nat>)
    ensures r.Some? ==> r.value < |s| && s[r.value] == ' ' && ' ' !in s[..r.value]
    ensures r.None? ==> ' ' !in s
  {
    if s == [] then None
    else if s[0] == ' ' then Some(0)
    else
      var rest := FirstSpace(s[1..]);
      assert s == [s[0]] + s[1..];
      if rest.Some? then
        assert s[..rest.value + 1] == [s[0]] + s[1..][..rest.value];
        Some(rest.value + 1)
      else None
  }

  /** Reads a token type and access token back out of an Authorization value. */
  function ParseAuthorization(v: string): (r: Option<(string, string)>)
    ensures r.Some? ==> v == r.value.0 + " " + r.value.1
  {
    match FirstSpace(v)
    case None => None
    case Some(k) =>
      assert v == v[..k] + " " + v[k + 1..];
      Some((v[..k], v[k + 1..]))
  }

  /** The first space of "{a} {b}" is the separator, when `a` has none. */
  lemma {:induction false} FirstSpaceOfJoin(a: string, b: string)
    requires ' ' !in a
    ensures FirstSpace(a + " " + b) == Some(|a|)
  {
    if a != [] {
      FirstSpaceOfJoin(a[1..], b);
      assert (a + " " + b)[1..] == a[1..] + " " + b;
    }
  }

  /**
   * After a grant, the Authorization value carries exactly the granted type and token: reading
   * it back gives them, whenever the token type has no space (as "Bearer" has none).
   */
  lemma AuthorizationRoundTrip(now: int, b: TokenBody)
    requires ' ' !in b.tokenType
    ensures var h := Header(Updated(now, b));
            ParseAuthorization(h[AuthorizationKey]) == Some((b.tokenType, b.accessToken))
  {
    var v := b.tokenType + " " + b.accessToken;
    var k := |b.tokenType|;
    FirstSpaceOfJoin(b.tokenType, b.accessToken);
    assert v[..k] == b.tokenType;
    assert v[k + 1..] == b.accessToken;
  }

  // ---------------------------------------------------------------------------------------
  // The expiry test, as written and as intended.

  /** A token is usable at `now` when it has one and its expiry lies in the future. */
  predicate Valid(t: Token, now: int) {
    t.expiresAt.Some? && now < t.expiresAt.value
  }

  /**
   * `is_connected` as written: compares the clock with `expires_at`, which raises TypeError
   * before the first grant, and is true once the clock has passed the expiry.
   */
  function IsConnectedAsWritten(t: Token, now: int): (r: Result<bool, Exception>)
    ensures r.Err? <==> t.expiresAt.None?
    ensures r.Err? ==> r.error == TypeError
    ensures r == Ok(true) <==> t.expiresAt.Some? && now > t.expiresAt.value
  {
    if t.expiresAt.None? then Err(TypeError) else Ok(now > t.expiresAt.value)
  }

  /**
   * As written, `get_token_if_expired` refreshes exactly when the token is still valid or
   * expires this very second, and never once it has expired.
   */
  lemma AsWrittenRefreshesOnlyUnexpired(t: Token, now: int)
    requires t.expiresAt.Some?
    ensures IsConnectedAsWritten(t, now) == Ok(false) <==> now <= t.expiresAt.value
    ensures !Valid(t, now) && now != t.expiresAt.value ==> IsConnectedAsWritten(t, now) == Ok(true)
  {
  }

  /** The input that shows it: a token that expired at 100 is kept, unrefreshed, at 101. */
  lemma ExpiredTokenKeptAsWritten()
    ensures var t := Token(Some("Bearer"), Some("a"), Some("r"), Some(100), None);
            !Valid(t, 101) && IsConnectedAsWritten(t, 101) == Ok(true)
  {
  }

  /** The intended test: connected while the token is valid; TypeError before the first grant is kept. */
  function IsConnected(t: Token, now: int): (r: Result<bool, Exception>)
    ensures r.Err? <==> t.expiresAt.None?
    ensures r.Err? ==> r.error == TypeError
    ensures r.Ok? ==> (r.value <==> Valid(t, now))
  {
    if t.expiresAt.None? then Err(TypeError) else Ok(now < t.expiresAt.value)
  }

  /** With the intended test, a granted token is refreshed exactly when it is no longer valid. */
  lemma CorrectedRefreshesExactlyExpired(t: Token, now: int)
    requires t.expiresAt.Some?
    ensures IsConnected(t, now) == Ok(false) <==> !Valid(t, now)
    ensures IsConnected(t, now) == Ok(false) <==> IsConnectedAsWritten(t, now) != Ok(false) || now == t.expiresAt.value
  {
  }

  /** A freshly granted token with a positive lifetime is valid until its lifetime has elapsed. */
  lemma FreshTokenValid(now: int, b: TokenBody, later: int)
    requires b.expiresIn > 0 && now <= later < now + b.expiresIn
    ensures Valid(Updated(now, b), later)
    ensures IsConnected(Updated(now, b), later) == Ok(true)
  {
  }

  // ---------------------------------------------------------------------------------------
  // The refresh loop `while not refresh(): sleep(10)`, with its attempts given in advance.

  /** One refresh attempt: the clock when its reply arrives, and the reply. */
  datatype TokenAttempt = TokenAttempt(at: int, reply: Outcome<TokenBody>)

  /** Why a call did not return normally: it raised, or its retry loop would still be running. */
  datatype Halt = Raise(error: Exception) | StillRetrying

  /** An attempt that ends the loop: it raised, or it was granted. */
  predicate Decisive(a: TokenAttempt) {
    a.reply.Raised? || IsSuccess(a.reply.status)
  }

  /** The attempt the refresh loop stops at: the first decisive one. */
  function FirstDecisive(attempts: seq<TokenAttempt>): (k: Option<nat>)
    ensures k.Some? ==> k.value < |attempts| && Decisive(attempts[k.value])
    ensures k.Some? ==> forall j :: 0 <= j < k.value ==> !Decisive(attempts[j])
    ensures k.None? <==> forall j :: 0 <= j < |attempts| ==> !Decisive(attempts[j])
  {
    if attempts == [] then None
    else if Decisive(attempts[0]) then Some(0)
    else
      var rest := FirstDecisive(attempts[1..]);
      assert forall j :: 1 <= j < |attempts| ==> attempts[j] == attempts[1..][j - 1];
      if rest.Some? then Some(rest.value + 1) else None
  }
}
