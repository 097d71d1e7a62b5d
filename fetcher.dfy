/**
 * `fetchPrices` of 1/index.js: obtain a token, request the price history of
 * one ticker, and on a 401 clear the cached token and try once more.
 *
 * Two slips in the retry path (1/index.js:62-80):
 *  - line 64 assigns `tokenExpiration`, a name declared nowhere, so
 *    `expiresIn` survives the 401; both functions below keep that, since a
 *    cleared `accessToken` alone already forces re-authentication
 *    (`Credentials.InvalidatedForcesAuth`);
 *  - line 67 calls `getValidToken`, which is never defined (only
 *    `token_valid` exists); the call raises a ReferenceError that the catch
 *    at line 77 rethrows, so as written no retry ever happens.
 * `FetchStepAsWritten` models the code as written; `FetchStep` the evident
 * intent (re-acquire through `token_valid`, retry once), which the rest of
 * the model uses.
 */
module Fetcher {
  import opened Types
  import opened Credentials

  const Unauthorized: int := 401

  /** The undefined name called at 1/index.js:67. */
  const MissingTokenFunction: string := "getValidToken"

  /** What `GET /stocks/{ticker}` answers: the history, an HTTP error status, or no response at all. */
  datatype StockResponse = Delivered(history: seq<PricePoint>) | Rejected(status: int) | Unreachable

  /** One stock request as sent upstream: its path parameters and its bearer token. */
  datatype StockRequest = StockRequest(ticker: string, minutes: int, bearer: string)

  /**
   * Everything the upstream service and the clock contribute to one call of
   * `fetchPrices`: the time and `/auth` answer of the first `token_valid`, the
   * answer to the first stock request, and the same three for the retry.
   */
  datatype Upstream = Upstream(
    now: int, auth: AuthResponse, first: StockResponse,
    retryNow: int, reauth: AuthResponse, retry: StockResponse)

  /** The state left behind, the value returned or thrown, the stock requests sent and the `/auth` calls made. */
  datatype FetchOutcome = FetchOutcome(
    state: CacheState, result: Result<seq<PricePoint>, Failure>,
    requests: seq<StockRequest>, authCalls: nat)

  /** The error axios throws for a response that is not a delivered history. */
  function ResponseFailure(r: StockResponse): (f: Failure)
    requires !r.Delivered?
    ensures f.HttpStatus? <==> r.Rejected?
    ensures r.Rejected? ==> f == HttpStatus(r.status)
  {
    if r.Rejected? then HttpStatus(r.status) else NoResponse
  }

  /** `error.response && error.response.status === 401` */
  predicate IsUnauthorized(r: StockResponse)
  {
    r.Rejected? && r.status == Unauthorized
  }

  function AuthCount(o: TokenOutcome): nat
  {
    if o.authCalled then 1 else 0
  }

  /** The retry of 1/index.js:66-80, with `token_valid` where the source names `getValidToken`. */
  function Retry(s: CacheState, ticker: string, minutes: int, u: Upstream, first: StockRequest, calls: nat): FetchOutcome
  {
    var t := TokenStep(Invalidate(s), u.retryNow, u.reauth);
    match t.token
    case Err(e) => FetchOutcome(t.state, Err(e), [first], calls + AuthCount(t))
    case Ok(bearer) =>
      var requests := [first, StockRequest(ticker, minutes, bearer)];
      match u.retry
      case Delivered(h) => FetchOutcome(t.state, Ok(h), requests, calls + AuthCount(t))
      case _ => FetchOutcome(t.state, Err(ResponseFailure(u.retry)), requests, calls + AuthCount(t))
  }

  /** `fetchPrices(ticker, minutes)` as evidently intended. */
  function FetchStep(s: CacheState, ticker: string, minutes: int, u: Upstream): FetchOutcome
  {
    var t := TokenStep(s, u.now, u.auth);
    match t.token
    case Err(e) => FetchOutcome(t.state, Err(e), [], AuthCount(t))
    case Ok(bearer) =>
      var request := StockRequest(ticker, minutes, bearer);
      match u.first
      case Delivered(h) => FetchOutcome(t.state, Ok(h), [request], AuthCount(t))
      case _ =>
        if IsUnauthorized(u.first) then Retry(t.state, ticker, minutes, u, request, AuthCount(t))
        else FetchOutcome(t.state, Err(ResponseFailure(u.first)), [request], AuthCount(t))
  }

  /** `fetchPrices(ticker, minutes)` as written: the retry path throws a ReferenceError before any call. */
  function FetchStepAsWritten(s: CacheState, ticker: string, minutes: int, u: Upstream): FetchOutcome
  {
    var t := TokenStep(s, u.now, u.auth);
    match t.token
    case Err(e) => FetchOutcome(t.state, Err(e), [], AuthCount(t))
    case Ok(bearer) =>
      var request := StockRequest(ticker, minutes, bearer);
      match u.first
      case Delivered(h) => FetchOutcome(t.state, Ok(h), [request], AuthCount(t))
      case _ =>
        if IsUnauthorized(u.first) then
          FetchOutcome(Invalidate(t.state), Err(UndefinedName(MissingTokenFunction)), [request], AuthCount(t))
        else FetchOutcome(t.state, Err(ResponseFailure(u.first)), [request], AuthCount(t))
  }

  /**
   * At most two stock requests, both for the requested ticker and window;
   * a second one only after a 401 on the first, and carrying the token
   * obtained after the cache was cleared. At most two `/auth` calls.
   */
  lemma {:induction false} AtMostTwoRequests(s: CacheState, ticker: string, minutes: int, u: Upstream)
    ensures var o := FetchStep(s, ticker, minutes, u);
      |o.requests| <= 2 && o.authCalls <= 2 &&
      (forall r | r in o.requests :: r.ticker == ticker && r.minutes == minutes) &&
      (|o.requests| == 2 ==>
        IsUnauthorized(u.first) &&
        o.requests[1].bearer == TokenStep(Invalidate(TokenStep(s, u.now, u.auth).state), u.retryNow, u.reauth).token.value)
  {
  }

  /** If `token_valid` throws, the error propagates and no stock request is sent. */
  lemma {:induction false} AuthFailurePropagates(s: CacheState, ticker: string, minutes: int, u: Upstream)
    requires TokenStep(s, u.now, u.auth).token.Err?
    ensures var o := FetchStep(s, ticker, minutes, u);
      o.result == Err(AuthenticationFailed) && o.requests == [] && o.state == s
  {
  }

  /** A delivered first answer is returned as it is, after exactly one request. */
  lemma {:induction false} DeliveredReturned(s: CacheState, ticker: string, minutes: int, u: Upstream)
    requires TokenStep(s, u.now, u.auth).token.Ok? && u.first.Delivered?
    ensures var o := FetchStep(s, ticker, minutes, u);
      o.result == Ok(u.first.history) && |o.requests| == 1 &&
      o.state == TokenStep(s, u.now, u.auth).state
  {
  }

  /** Any failure other than a 401 is rethrown untouched: no retry, and the token is not cleared. */
  lemma {:induction false} OtherFailurePropagates(s: CacheState, ticker: string, minutes: int, u: Upstream)
    requires TokenStep(s, u.now, u.auth).token.Ok?
    requires !u.first.Delivered? && !IsUnauthorized(u.first)
    ensures var o := FetchStep(s, ticker, minutes, u);
      o.result == Err(ResponseFailure(u.first)) && |o.requests| == 1 &&
      o.state == TokenStep(s, u.now, u.auth).state &&
      o.state.accessToken.Some?
  {
  }

  /**
   * After a 401 the token is cleared, so the retry always authenticates
   * again, even when `expiresIn` (which survives) still lies ahead. If that
   * authentication fails, the token stays cleared and `expiresIn` keeps its
   * value; otherwise the retry's answer is the result, and a second failure
   * (a second 401 included) is thrown without a third request.
   */
  lemma {:induction false} UnauthorizedRetriesOnce(s: CacheState, ticker: string, minutes: int, u: Upstream)
    requires TokenStep(s, u.now, u.auth).token.Ok? && IsUnauthorized(u.first)
    ensures var first := TokenStep(s, u.now, u.auth);
      var o := FetchStep(s, ticker, minutes, u);
      o.authCalls == AuthCount(first) + 1 &&
      (u.reauth.AuthRejected? ==>
        o.result == Err(AuthenticationFailed) && |o.requests| == 1 &&
        o.state.accessToken == None && o.state.expiresIn == first.state.expiresIn) &&
      (u.reauth.AuthGranted? ==>
        |o.requests| == 2 && o.requests[1].bearer == u.reauth.accessToken &&
        o.state.accessToken == Some(u.reauth.accessToken) &&
        o.result == (if u.retry.Delivered? then Ok(u.retry.history) else Err(ResponseFailure(u.retry))))
  {
    InvalidatedForcesAuth(TokenStep(s, u.now, u.auth).state, u.retryNow, u.reauth);
  }

  /** Every path keeps a stored token paired with a stored expiry. */
  lemma {:induction false} FetchStepKeepsConsistent(s: CacheState, ticker: string, minutes: int, u: Upstream)
    requires Consistent(s)
    ensures Consistent(FetchStep(s, ticker, minutes, u).state)
  {
    var t := TokenStep(s, u.now, u.auth);
    TokenStepContract(s, u.now, u.auth);
    TokenStepContract(Invalidate(t.state), u.retryNow, u.reauth);
  }

  /** As written, a 401 on the first request always ends in the ReferenceError, with one request sent and the token cleared. */
  lemma {:induction false} AsWrittenNeverRetries(s: CacheState, ticker: string, minutes: int, u: Upstream)
    requires TokenStep(s, u.now, u.auth).token.Ok? && IsUnauthorized(u.first)
    ensures var o := FetchStepAsWritten(s, ticker, minutes, u);
      o.result == Err(UndefinedName("getValidToken")) && |o.requests| == 1 &&
      o.state.accessToken == None &&
      o.state.expiresIn == TokenStep(s, u.now, u.auth).state.expiresIn
  {
  }

  /** Off the 401 path the code as written and the intended code agree. */
  lemma {:induction false} AsWrittenAgreesWithoutUnauthorized(s: CacheState, ticker: string, minutes: int, u: Upstream)
    requires !IsUnauthorized(u.first)
    ensures FetchStepAsWritten(s, ticker, minutes, u) == FetchStep(s, ticker, minutes, u)
  {
  }

  /** The input that shows the slip: a 401, then a fresh token and a delivered history on the retry. */
  lemma {:induction false} AsWrittenLosesRecoverableRequest()
    ensures var u := Upstream(0, AuthGranted("t1", 3600, 0), Rejected(401), 1, AuthGranted("t2", 3600, 1), Delivered([]));
      FetchStep(Initial, "AMD", 50, u).result == Ok([]) &&
      FetchStepAsWritten(Initial, "AMD", 50, u).result == Err(UndefinedName("getValidToken"))
  {
  }
}
