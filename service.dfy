/**
 * The backend of 1/index.js as a stateful object: the two module-level
 * variables `accessToken` and `expiresIn` become the fields of `Backend`,
 * whose methods perform `token_valid`, `fetchPrices` and the two route
 * handlers in place. Each method is proved to agree with the pure step
 * function that specifies it (`Credentials.TokenStep`, `Fetcher.FetchStep`,
 * `StockRouteStep`, `CorrelationRouteStep`); the properties of the routes
 * are proved about those functions.
 *
 * Upstream answers and clock readings are parameters (`Upstream`); the
 * HTTP response is the `Response` value a handler sends.
 */
module Service {
  import opened Types
  import opened Credentials
  import opened Fetcher
  import opened Statistics
  import opened Query

  const TwoTickersRequired: string := "API requires 2 tickers for analysis"
  const StockRouteFailed: string := "Failed to retrieve stock prices"
  const CorrelationRouteFailed: string := "Failed to calculate stock correlation"

  /** What a handler sends: a 400, a 500 with the error, or one of the two JSON bodies. */
  datatype Response =
    | BadRequest(message: string)
    | ServerError(message: string, details: Failure)
    | AveragePrice(averageStockPrice: real, priceHistory: seq<PricePoint>)
    | CorrelationReport(correlation: Correlation, stocks: map<string, StockSummary>)

  /** The backend's state after a handler, the response it sent and the stock requests it made. */
  datatype RouteOutcome = RouteOutcome(state: CacheState, response: Response, requests: seq<StockRequest>)

  /** `{averagePrice, priceHistory}` of one history. */
  function Summary(h: seq<PricePoint>): StockSummary
  {
    StockSummary(AvgPrice(Some(h)), h)
  }

  /** `GET /stocks/:ticker` (1/index.js:125-145). */
  function StockRouteStep(s: CacheState, ticker: string, minutesQuery: QueryValue, u: Upstream): RouteOutcome
  {
    var o := FetchStep(s, ticker, Minutes(minutesQuery), u);
    match o.result
    case Ok(h) => RouteOutcome(o.state, AveragePrice(AvgPrice(Some(h)), h), o.requests)
    case Err(e) => RouteOutcome(o.state, ServerError(StockRouteFailed, e), o.requests)
  }

  /** `GET /stockcorrelation` (1/index.js:148-182); `u0` and `u1` feed the two fetches in turn. */
  function CorrelationRouteStep(s: CacheState, tickerQuery: QueryValue, minutesQuery: QueryValue,
                                u0: Upstream, u1: Upstream): RouteOutcome
  {
    var minutes := Minutes(minutesQuery);
    match TickerPair(tickerQuery)
    case None => RouteOutcome(s, BadRequest(TwoTickersRequired), [])
    case Some((t0, t1)) =>
      var a := FetchStep(s, t0, minutes, u0);
      match a.result
      case Err(e) => RouteOutcome(a.state, ServerError(CorrelationRouteFailed, e), a.requests)
      case Ok(ha) =>
        var b := FetchStep(a.state, t1, minutes, u1);
        match b.result
        case Err(e) => RouteOutcome(b.state, ServerError(CorrelationRouteFailed, e), a.requests + b.requests)
        case Ok(hb) =>
          RouteOutcome(b.state,
            CorrelationReport(Pearson(ha, hb), map[t0 := Summary(ha)][t1 := Summary(hb)]),
            a.requests + b.requests)
  }

  /** The backend process: its credential cache, updated in place. */
  class Backend {
    var accessToken: Option<string>
    var expiresIn: Option<int>

    function State(): CacheState
      reads this
    {
      CacheState(accessToken, expiresIn)
    }

    /** Module start-up: both variables `null`. */
    constructor()
      ensures State() == Initial
    {
      accessToken := None;
      expiresIn := None;
    }

    /** `token_valid()` with the guard's clock reading `now` and the `/auth` answer `auth`. */
    method TokenValid(now: int, auth: AuthResponse) returns (token: Result<string, Failure>, authCalled: bool)
      modifies this
      ensures TokenOutcome(State(), token, authCalled) == TokenStep(old(State()), now, auth)
    {
      if accessToken.Some? && accessToken.value != "" && expiresIn.Some? && expiresIn.value != 0 &&
         now < expiresIn.value {
        return Ok(accessToken.value), false;
      }
      match auth
      case AuthGranted(granted, ttl, at) =>
        accessToken := Some(granted);
        expiresIn := Some(at + ttl * 1000 - 5 * 60 * 1000);
        return Ok(granted), true;
      case AuthRejected =>
        return Err(AuthenticationFailed), true;
    }

    /**
     * `fetchPrices(ticker, minutes)` with the retry going through
     * `token_valid`; the as-written retry is `Fetcher.FetchStepAsWritten`.
     */
    method FetchPrices(ticker: string, minutes: int, u: Upstream)
      returns (result: Result<seq<PricePoint>, Failure>, requests: seq<StockRequest>, authCalls: nat)
      modifies this
      ensures FetchOutcome(State(), result, requests, authCalls) == FetchStep(old(State()), ticker, minutes, u)
    {
      var token, called := TokenValid(u.now, u.auth);
      authCalls := if called then 1 else 0;
      if token.Err? {
        return Err(token.error), [], authCalls;
      }
      var first := StockRequest(ticker, minutes, token.value);
      requests := [first];
      if u.first.Delivered? {
        return Ok(u.first.history), requests, authCalls;
      }
      if !IsUnauthorized(u.first) {
        return Err(ResponseFailure(u.first)), requests, authCalls;
      }
      accessToken := None;
      // the source's next line assigns an undeclared name: expiresIn keeps its value
      var retryToken, retryCalled := TokenValid(u.retryNow, u.reauth);
      authCalls := authCalls + (if retryCalled then 1 else 0);
      if retryToken.Err? {
        return Err(retryToken.error), requests, authCalls;
      }
      requests := requests + [StockRequest(ticker, minutes, retryToken.value)];
      if u.retry.Delivered? {
        return Ok(u.retry.history), requests, authCalls;
      }
      return Err(ResponseFailure(u.retry)), requests, authCalls;
    }

    /** The handler of `GET /stocks/:ticker`. */
    method StockRoute(ticker: string, minutesQuery: QueryValue, u: Upstream)
      returns (response: Response, requests: seq<StockRequest>)
      modifies this
      ensures RouteOutcome(State(), response, requests) == StockRouteStep(old(State()), ticker, minutesQuery, u)
    {
      var minutes := Minutes(minutesQuery);
      var result, sent, _ := FetchPrices(ticker, minutes, u);
      requests := sent;
      match result
      case Ok(priceHistory) =>
        response := AveragePrice(AvgPrice(Some(priceHistory)), priceHistory);
      case Err(e) =>
        response := ServerError(StockRouteFailed, e);
    }

    /** The handler of `GET /stockcorrelation`. */
    method CorrelationRoute(tickerQuery: QueryValue, minutesQuery: QueryValue, u0: Upstream, u1: Upstream)
      returns (response: Response, requests: seq<StockRequest>)
      modifies this
      ensures RouteOutcome(State(), response, requests) ==
        CorrelationRouteStep(old(State()), tickerQuery, minutesQuery, u0, u1)
    {
      var minutes := Minutes(minutesQuery);
      var pair := TickerPair(tickerQuery);
      if pair.None? {
        return BadRequest(TwoTickersRequired), [];
      }
      var (t0, t1) := pair.value;
      var stockAData, sentA, _ := FetchPrices(t0, minutes, u0);
      if stockAData.Err? {
        return ServerError(CorrelationRouteFailed, stockAData.error), sentA;
      }
      var stockBData, sentB, _ := FetchPrices(t1, minutes, u1);
      requests := sentA + sentB;
      if stockBData.Err? {
        return ServerError(CorrelationRouteFailed, stockBData.error), requests;
      }
      var correlation := FindCorr(stockAData.value, stockBData.value);
      var stocks := map[t0 := Summary(stockAData.value)][t1 := Summary(stockBData.value)];
      response := CorrelationReport(correlation, stocks);
    }
  }

  // ---- Properties of the routes ----

  /** The stock route answers with the average of exactly the history fetched, or a 500 carrying the fetch error. */
  lemma {:induction false} StockRouteAnswers(s: CacheState, ticker: string, minutesQuery: QueryValue, u: Upstream)
    ensures var o := FetchStep(s, ticker, Minutes(minutesQuery), u);
      var r := StockRouteStep(s, ticker, minutesQuery, u);
      r.state == o.state && r.requests == o.requests &&
      (r.response.AveragePrice? <==> o.result.Ok?) &&
      (o.result.Ok? ==> r.response.priceHistory == o.result.value &&
                        r.response.averageStockPrice == AvgPrice(Some(o.result.value))) &&
      (o.result.Err? ==> r.response == ServerError(StockRouteFailed, o.result.error))
  {
  }

  /** Every stock request the stock route sends is for its ticker and a non-zero window. */
  lemma {:induction false} StockRouteRequests(s: CacheState, ticker: string, minutesQuery: QueryValue, u: Upstream)
    ensures var r := StockRouteStep(s, ticker, minutesQuery, u);
      1 <= |r.requests| + (if TokenStep(s, u.now, u.auth).token.Err? then 1 else 0) <= 2 &&
      forall q | q in r.requests :: q.ticker == ticker && q.minutes == Minutes(minutesQuery) && q.minutes != 0
  {
    AtMostTwoRequests(s, ticker, Minutes(minutesQuery), u);
    MinutesNeverZero(minutesQuery);
  }

  /** Without exactly two tickers the route answers 400 before any fetch and leaves the cache alone. */
  lemma {:induction false} CorrelationRejectsBeforeFetching(s: CacheState, tickerQuery: QueryValue, minutesQuery: QueryValue,
                                         u0: Upstream, u1: Upstream)
    ensures var r := CorrelationRouteStep(s, tickerQuery, minutesQuery, u0, u1);
      r.response.BadRequest? <==> !(tickerQuery.Many? && |tickerQuery.items| == 2)
    ensures var r := CorrelationRouteStep(s, tickerQuery, minutesQuery, u0, u1);
      r.response.BadRequest? ==>
        r.response.message == TwoTickersRequired && r.requests == [] && r.state == s
  {
    assert TickerPair(tickerQuery).None? <==> !(tickerQuery.Many? && |tickerQuery.items| == 2);
  }

  /**
   * With two tickers, the first ticker's requests all come before the
   * second's, all with the same window; at most four requests in all.
   */
  lemma {:induction false} CorrelationFetchOrder(s: CacheState, t0: string, t1: string, minutesQuery: QueryValue, u0: Upstream, u1: Upstream)
    ensures var r := CorrelationRouteStep(s, Many([t0, t1]), minutesQuery, u0, u1);
      var a := FetchStep(s, t0, Minutes(minutesQuery), u0);
      |r.requests| <= 4 &&
      r.requests[..|a.requests|] == a.requests &&
      (forall i :: 0 <= i < |a.requests| ==> r.requests[i].ticker == t0) &&
      (forall i :: |a.requests| <= i < |r.requests| ==> r.requests[i].ticker == t1) &&
      (forall q | q in r.requests :: q.minutes == Minutes(minutesQuery))
  {
    var minutes := Minutes(minutesQuery);
    var a := FetchStep(s, t0, minutes, u0);
    var b := FetchStep(a.state, t1, minutes, u1);
    AtMostTwoRequests(s, t0, minutes, u0);
    AtMostTwoRequests(a.state, t1, minutes, u1);
    TickerPairIff(Many([t0, t1]), t0, t1);
    var r := CorrelationRouteStep(s, Many([t0, t1]), minutesQuery, u0, u1);
    if a.result.Ok? {
      assert r.requests == a.requests + b.requests;
      RequestsInOrder(a.requests, b.requests, t0, t1, minutes);
    } else {
      assert r.requests == a.requests + [];
      RequestsInOrder(a.requests, [], t0, t1, minutes);
    }
  }

  /** The first ticker's requests followed by the second's. */
  lemma {:induction false} RequestsInOrder(first: seq<StockRequest>, second: seq<StockRequest>, t0: string, t1: string, minutes: int)
    requires forall q | q in first :: q.ticker == t0 && q.minutes == minutes
    requires forall q | q in second :: q.ticker == t1 && q.minutes == minutes
    ensures var r := first + second;
      r[..|first|] == first &&
      (forall i :: 0 <= i < |first| ==> r[i].ticker == t0) &&
      (forall i :: |first| <= i < |r| ==> r[i].ticker == t1) &&
      (forall q | q in r :: q.minutes == minutes)
  {
    var r := first + second;
    assert r[..|first|] == first;
    forall i | |first| <= i < |r|
      ensures r[i].ticker == t1
    {
      assert r[i] == second[i - |first|];
    }
  }

  /**
   * When both fetches deliver, the report holds the correlation of the two
   * histories and, under each ticker, its summary; with the same ticker
   * twice the second history is the one kept.
   */
  lemma {:induction false} CorrelationReportContents(s: CacheState, t0: string, t1: string, minutesQuery: QueryValue,
                                  u0: Upstream, u1: Upstream)
    requires FetchStep(s, t0, Minutes(minutesQuery), u0).result.Ok?
    requires FetchStep(FetchStep(s, t0, Minutes(minutesQuery), u0).state, t1, Minutes(minutesQuery), u1).result.Ok?
    ensures var a := FetchStep(s, t0, Minutes(minutesQuery), u0);
      var b := FetchStep(a.state, t1, Minutes(minutesQuery), u1);
      var r := CorrelationRouteStep(s, Many([t0, t1]), minutesQuery, u0, u1);
      r.response.CorrelationReport? &&
      r.response.correlation == Pearson(a.result.value, b.result.value) &&
      r.response.stocks.Keys == {t0, t1} &&
      r.response.stocks[t1] == StockSummary(AvgPrice(Some(b.result.value)), b.result.value) &&
      (t0 != t1 ==> r.response.stocks[t0] == StockSummary(AvgPrice(Some(a.result.value)), a.result.value))
  {
  }

  /** A failed first fetch ends the route with a 500 and no request for the second ticker. */
  lemma {:induction false} CorrelationStopsAtFirstFailure(s: CacheState, t0: string, t1: string, minutesQuery: QueryValue,
                                       u0: Upstream, u1: Upstream)
    requires FetchStep(s, t0, Minutes(minutesQuery), u0).result.Err?
    ensures var a := FetchStep(s, t0, Minutes(minutesQuery), u0);
      var r := CorrelationRouteStep(s, Many([t0, t1]), minutesQuery, u0, u1);
      r.response == ServerError(CorrelationRouteFailed, a.result.error) &&
      r.requests == a.requests && (forall q | q in r.requests :: q.ticker == t0)
  {
    AtMostTwoRequests(s, t0, Minutes(minutesQuery), u0);
  }

  /** Both routes keep a stored token paired with a stored expiry. */
  lemma {:induction false} RoutesKeepConsistent(s: CacheState, ticker: string, tickerQuery: QueryValue, minutesQuery: QueryValue,
                             u0: Upstream, u1: Upstream)
    requires Consistent(s)
    ensures Consistent(StockRouteStep(s, ticker, minutesQuery, u0).state)
    ensures Consistent(CorrelationRouteStep(s, tickerQuery, minutesQuery, u0, u1).state)
  {
    var minutes := Minutes(minutesQuery);
    FetchStepKeepsConsistent(s, ticker, minutes, u0);
    if TickerPair(tickerQuery).Some? {
      var (t0, t1) := TickerPair(tickerQuery).value;
      FetchStepKeepsConsistent(s, t0, minutes, u0);
      FetchStepKeepsConsistent(FetchStep(s, t0, minutes, u0).state, t1, minutes, u1);
    }
  }

  /**
   * How `res.json` carries a correlation to the client: NaN becomes `null`
   * (`None`), a defined correlation its coefficient.
   */
  predicate SerializesTo(c: Correlation, v: Option<real>)
  {
    if c.Undefined? then v == None else v.Some? && IsCoefficient(v.value, c)
  }

  /** A served coefficient always lies in [-1, 1], and `null` is served exactly for an undefined correlation. */
  lemma {:induction false} ServedCoefficientInRange(a: seq<PricePoint>, b: seq<PricePoint>, v: Option<real>)
    requires SerializesTo(Pearson(a, b), v)
    ensures v.None? <==> Pearson(a, b).Undefined?
    ensures v.Some? ==> -1.0 <= v.value <= 1.0
  {
    if v.Some? {
      PearsonBounded(a, b, v.value);
    }
  }
}
