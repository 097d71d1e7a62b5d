# Stock price statistics service: a Dafny model

This project models the logic of a small stock-analysis application.

The backend (`1/index.js`) has four parts:

- **Credential cache.** It keeps one bearer token for an upstream price service. The token is stored with an expiry that is five minutes shorter than its lifetime. It is reused while the clock is before that expiry and fetched again afterwards.
- **Price fetch.** It fetches the price history of one ticker over a window of minutes. After a 401 it clears the token and is meant to re-authenticate and try once more; as written the retry throws instead (see "## Findings").
- **Statistics.** It computes the average price and the Pearson correlation of two histories (sample covariance and variances, denominator n - 1).
- **Routes.** Two HTTP routes use the above. They share one rule for the `minutes` parameter (`parseInt(...) || 50`), and the correlation route checks that exactly two tickers were given.

The client page (`2/src/pages/CorrelationHeatmap.js`) does four things:

- It requests every pair of its configured stocks, one after the other.
- It assembles a symmetric correlation matrix and a per-ticker details table.
- It paints each cell by banding the correlation.
- It shows the population standard deviation (denominator n) of a hovered stock.

## How the model is built

- Values are datatypes.
- Every decision is a pure function: one call of `token_valid`, one `fetchPrices`, one route, one iteration of the pair loop.
- Properties are lemmas about those functions.
- Code that changes state in place is imperative Dafny, and each method's `ensures` ties it to the pure function that specifies it:
  - `Service.Backend` is a class whose fields are the backend's `accessToken` and `expiresIn`. Its methods perform `token_valid`, `fetchPrices` and the two handlers in place.
  - `Statistics.FindCorr` keeps the accumulating `for` loop.
  - `Heatmap.FetchCorrelations` keeps the nested loops that fill the matrix and the details.
- Things the code cannot see are parameters:
  - the clock readings;
  - the answers of the upstream `/auth` and `/stocks` endpoints;
  - the server's answers to the page.
- Prices are exact `real`s.
- Square roots are not computed. A correlation is `Undefined` (JavaScript's NaN) or the triple (covariance, variance A, variance B).
- "`r` is the coefficient" is stated in squared form: `r*r*varA*varB == cov*cov`, with `r` having the sign of `cov`.
- NaN travels to the page as JSON `null`, which is `None` there.

Files:

- `types.dfy`: shared datatypes.
- `credentials.dfy`: `token_valid`.
- `fetcher.dfy`: `fetchPrices`.
- `statistics.dfy`: `avgPrice` and `findCorr`.
- `query.dfy`: `parseInt(...) || 50` and the two-ticker check.
- `service.dfy`: the backend object and its routes.
- `heatmap.dfy`: the page.

Behaviours of the code worth knowing; the model follows the code:

- A 401 clears only `accessToken`. Line 64 assigns an undeclared name, `tokenExpiration`, so `expiresIn` keeps its value. This has no visible effect, because a cleared token alone forces re-authentication (`Credentials.InvalidatedForcesAuth`).
- A freshly issued token is not always inside its validity window. With `expires_in <= 300` seconds it is stored already expired (`Credentials.HandedOutTokenValidity`).
- The correlation route does not check that the two tickers differ. With the same ticker twice, the report has one entry.
- A negative `minutes` is passed on as it is. Only NaN and zero give the default 50.
- An `/auth` answer whose body lacks `access_token` or `expires_in` does not fail: the token is stored as `undefined` and the expiry as NaN (not modelled; see "## Left out").

## Model

| member | source | states |
|---|---|---|
| Credentials.Usable | 1/index.js:28 | the cache guard with JavaScript truthiness; a definition without a contract, whose meaning `Credentials.CachedTokenReused`, `Credentials.TokenStepContract` and `Credentials.SecondCallReusesWithinWindow` state |
| Credentials.TokenStep | 1/index.js:27-45 | one call of `token_valid`; a definition without a contract, specified by `Credentials.TokenStepContract`, `Credentials.RefreshStoresBufferedExpiry` and `Credentials.RejectedAuthRaises` |
| Credentials.Invalidate | 1/index.js:62-64 | a 401 clears the token and leaves the stored expiry as it was |
| Credentials.CachedTokenReused | 1/index.js:28-30 | with a non-empty token, a non-zero expiry and the clock before it, the cached token is returned, `/auth` is not called and nothing changes |
| Credentials.RefreshStoresBufferedExpiry | 1/index.js:33-40 | otherwise `/auth` is called, and on success the token and the expiry (answer time + lifetime·1000 − 300000) are stored and the token is returned |
| Credentials.RejectedAuthRaises | 1/index.js:41-44 | a failed authentication raises the authentication error and leaves both variables unchanged |
| Credentials.TokenStepContract | 1/index.js:27-45 | `/auth` is called exactly when the cache is not usable; a returned token is the stored one; a stored token always has a stored expiry |
| Credentials.HandedOutTokenValidity | 1/index.js:28-40 | a cached token is handed out before its expiry; a fresh one is inside its window exactly when its lifetime exceeds the five-minute buffer |
| Credentials.SecondCallReusesWithinWindow | 1/index.js:28-40 | after a refresh, the next call reuses the token exactly when the call comes before the buffered expiry (and the token is non-empty and the expiry non-zero) |
| Credentials.InvalidatedForcesAuth | 1/index.js:62-64 | after the token is cleared the next `token_valid` always authenticates, whatever `expiresIn` holds |
| Fetcher.Retry | 1/index.js:62-80 | the intended 401 path; a definition without a contract, specified by `Fetcher.UnauthorizedRetriesOnce` |
| Fetcher.FetchStep | 1/index.js:47-86 | `fetchPrices` with the intended retry; a definition without a contract, specified by `Fetcher.AtMostTwoRequests`, `Fetcher.DeliveredReturned`, `Fetcher.OtherFailurePropagates` and `Fetcher.FetchStepKeepsConsistent` |
| Fetcher.FetchStepAsWritten | 1/index.js:47-86 | `fetchPrices` as written; a definition without a contract, specified by `Fetcher.AsWrittenNeverRetries` and `Fetcher.AsWrittenAgreesWithoutUnauthorized` |
| Fetcher.ResponseFailure | 1/index.js:83-84 | the error thrown for an undelivered answer is an HTTP status exactly when the upstream answered, and then it is the upstream's own status |
| Fetcher.AtMostTwoRequests | 1/index.js:47-80 | at most two stock requests and two `/auth` calls, all for the requested ticker and window; a second request only after a 401, carrying the re-acquired token |
| Fetcher.AuthFailurePropagates | 1/index.js:48 | a failing `token_valid` propagates its error before any stock request |
| Fetcher.DeliveredReturned | 1/index.js:51-60 | a delivered history is returned unchanged after one request |
| Fetcher.OtherFailurePropagates | 1/index.js:62-84 | any failure other than a 401 is rethrown without a retry and without clearing the token |
| Fetcher.UnauthorizedRetriesOnce | 1/index.js:62-80 | after a 401 the token is re-acquired through `/auth` and exactly one more request is sent; its answer or error is the result |
| Fetcher.FetchStepKeepsConsistent | 1/index.js:47-86 | every path keeps a stored token paired with a stored expiry |
| Fetcher.AsWrittenNeverRetries | 1/index.js:62-79 | as written, a 401 always ends in the ReferenceError for `getValidToken`, after one request, with the token cleared |
| Fetcher.AsWrittenAgreesWithoutUnauthorized | 1/index.js:47-86 | off the 401 path the code as written and the corrected code behave identically |
| Fetcher.AsWrittenLosesRecoverableRequest | 1/index.js:67 | a 401 followed by a successful re-authentication and retry succeeds in the corrected code and fails in the code as written |
| Statistics.Sum | 1/index.js:91 | the `reduce` over prices; a definition without a contract, specified by `Statistics.SumBounds` and `Statistics.SumConstant` |
| Statistics.Mean | 1/index.js:100-101 | sum over count; a definition without a contract, specified by `Statistics.ConstantIffAtMean` and `Statistics.MirrorMean` |
| Statistics.AvgPrice | 1/index.js:88-93 | `avgPrice`; a definition without a contract, specified by `Statistics.AvgPriceOfNothing` and `Statistics.AvgPriceBetween` |
| Statistics.Truncated | 1/index.js:96-98 | both histories cut to the shorter length; a definition without a contract, specified by `Statistics.PearsonTruncates` |
| Statistics.FromSums | 1/index.js:115-121 | NaN or the three sums divided by n − 1; a definition without a contract, specified by `Statistics.PearsonUndefinedIff` and `Statistics.ScaledBound` |
| Statistics.Pearson | 1/index.js:95-122 | the value `findCorr` computes; a definition without a contract, specified by `Statistics.FindCorr`, `Statistics.PearsonBounded`, `Statistics.PearsonUndefinedIff`, `Statistics.PearsonSymmetric`, `Statistics.PearsonSelf` and `Statistics.PearsonMirror` |
| Statistics.SumBounds | 1/index.js:91 | a sum of n values within [lo, hi] lies within [n·lo, n·hi] |
| Statistics.AvgPriceOfNothing | 1/index.js:89 | a missing or empty history averages to 0 |
| Statistics.AvgPriceBetween | 1/index.js:88-93 | the average of a non-empty history lies between its least and greatest price |
| Statistics.AvgPriceExamples | 1/index.js:88-93 | the mean of 10 and 20 is 15, and the mean of 100, 102 and 101 is 101 |
| Statistics.AccumulateStep | 1/index.js:107-113 | one pass of the loop extends the three running sums by the products of the i-th deviations |
| Statistics.SumDeviationProducts | 1/index.js:103-113 | the loop leaves in `cov`, `varA` and `varB` the sums of the deviation products over all points |
| Statistics.FindCorr | 1/index.js:95-122 | the imperative computation returns exactly the Pearson correlation of the two histories |
| Statistics.SquaresNonNegative | 1/index.js:111-112 | the accumulated variances are never negative |
| Statistics.SquaresZeroIff | 1/index.js:111-112 | a sum of squares is zero exactly when every term is zero |
| Statistics.SumConstant | 1/index.js:100-101 | a series of equal values sums to n times that value |
| Statistics.ConstantIffAtMean | 1/index.js:100-109 | a series is constant exactly when every element equals its mean |
| Statistics.VarianceZeroIffConstant | 1/index.js:100-117 | the squared deviations sum to zero exactly when all prices are equal |
| Statistics.QuadNonNegative | 1/index.js:107-113 | the expanded sum of (t·devA − devB)² is never negative |
| Statistics.CauchySchwarz | 1/index.js:107-121 | the squared covariance sum is at most the product of the variance sums |
| Statistics.DotSymmetric | 1/index.js:110 | the covariance sum does not depend on the order of its two factors |
| Statistics.PearsonVariancesPositive | 1/index.js:115-121 | a defined correlation has two positive variances |
| Statistics.PearsonUndefinedIff | 1/index.js:96-121 | the result is NaN exactly when fewer than two points are shared or a truncated series is constant |
| Statistics.ZeroVarianceZeroCovariance | 1/index.js:115-121 | when a variance is zero so is the covariance, so the NaN comes from 0/0 |
| Statistics.PearsonBounded | 1/index.js:107-121 | a defined coefficient lies in [-1, 1] |
| Statistics.ScaledBound | 1/index.js:115-117 | dividing the three sums by n − 1 keeps the Cauchy–Schwarz inequality |
| Statistics.CoefficientUnique | 1/index.js:118-121 | a defined correlation determines its coefficient |
| Statistics.PearsonSymmetric | 1/index.js:95-121 | swapping the two histories gives the same coefficient |
| Statistics.PearsonTruncates | 1/index.js:96-98 | only the first min(len A, len B) points of each history, in order, affect the result |
| Statistics.PearsonSelf | 1/index.js:95-121 | a non-constant history of two or more points has coefficient exactly 1 with itself |
| Statistics.SumReflected | 1/index.js:100 | reflecting every price through k reflects the sum |
| Statistics.DotNegated | 1/index.js:110-112 | negating deviations negates the covariance sum and keeps the variance sums |
| Statistics.MirrorMean | 1/index.js:100-101 | reflecting a series through k reflects its mean |
| Statistics.MirrorDeviations | 1/index.js:108-109 | the deviations of a reflected series are the negated deviations |
| Statistics.MirrorSums | 1/index.js:107-117 | a history and its mirror image have equal positive variances and the negated variance as covariance |
| Statistics.PearsonMirror | 1/index.js:95-121 | a history and its mirror image through any level have coefficient exactly −1 |
| Query.JsString | 1/index.js:128 | JavaScript's `ToString` of a query value; a definition without a contract, used by `Query.RepeatedMinutesUseFirst` and `Query.MinutesDefaultWhenNotNumeric` |
| Query.ParseInt | 1/index.js:128 | `parseInt` with no radix; a definition without a contract, specified by `Query.TrimStartRemovesLeadingSpace`, `Query.DigitPrefixIsLongest` and `Query.ParseDecimal` |
| Query.Minutes | 1/index.js:151 | `parseInt` of the parameter, or 50 when that is falsy; a definition without a contract, specified by `Query.MinutesNeverZero` and `Query.MinutesPassThrough` |
| Query.TickerPair | 1/index.js:153 | the two-ticker check; a definition whose contract is `Query.TickerPairIff` |
| Query.MinutesNeverZero | 1/index.js:128 | the window is never 0: it is the parsed number when that is a non-zero number, and 50 when parsing gives NaN |
| Query.NoLeadingSpace | 1/index.js:128 | a string not starting with white space is not changed by the trimming step of `parseInt` |
| Query.TrimStartRemovesLeadingSpace | 1/index.js:128 | `parseInt` skips exactly the leading run of white space |
| Query.DigitPrefixIsLongest | 1/index.js:128 | `parseInt` reads the longest run of digits and stops at the first non-digit |
| Query.MinutesDefaultWhenNotNumeric | 1/index.js:151 | an absent parameter, an object and a word all give 50 |
| Query.MinutesDefaultWhenEmptyOrZero | 1/index.js:151 | the empty string, `0` and `-0` give 50 |
| Query.Decimal | 2/src/pages/CorrelationHeatmap.js:81 | the window a client writes into the URL is a run of decimal digits, with no leading zero unless it is 0 |
| Query.DecimalValue | 1/index.js:128 | reading back the decimal digits of n gives n |
| Query.DigitsThenStop | 1/index.js:128 | digits followed by a non-digit are read up to the non-digit |
| Query.UnsignedDecimal | 1/index.js:128 | a decimal numeral followed by a tail that cannot continue it parses to its value |
| Query.ParseDecimal | 1/index.js:128 | `parseInt` of the numeral of n is n, and with a leading minus is −n |
| Query.MinutesPassThrough | 1/index.js:128 | every positive window passes unchanged, and so does every negative one |
| Query.RepeatedMinutesUseFirst | 1/index.js:151 | a `minutes` parameter repeated any number of times is read by its first value alone, whatever that value is |
| Query.ParseIntSkipsSpaceAndStops | 1/index.js:128 | `" 12.9"` reads as 12 |
| Query.ParseIntHex | 1/index.js:128 | `"0x1F"` reads as 31 |
| Query.TickerPairIff | 1/index.js:153-155 | the route goes on with tickers a and b, in that order, exactly when the parameter is the array [a, b]; it is rejected exactly when it is no two-element array |
| Query.TickerPairExamples | 1/index.js:153-155 | one ticker, three tickers or none are rejected; the same ticker twice is accepted |
| Service.StockRouteStep | 1/index.js:125-145 | the stock route; a definition without a contract, specified by `Service.StockRouteAnswers` and `Service.StockRouteRequests` |
| Service.CorrelationRouteStep | 1/index.js:148-182 | the correlation route; a definition without a contract, specified by `Service.CorrelationRejectsBeforeFetching`, `Service.CorrelationFetchOrder`, `Service.CorrelationReportContents` and `Service.CorrelationStopsAtFirstFailure` |
| Service.Summary | 1/index.js:166-173 | the per-ticker `{averagePrice, priceHistory}` object; a definition without a contract, used by `Service.CorrelationReportContents` |
| Service.SerializesTo | 1/index.js:160-164 | `res.json` carrying NaN as `null` and a defined correlation as its coefficient; a definition without a contract, used by `Service.ServedCoefficientInRange` and `Heatmap.ServerAnswerAsSeen` |
| Service.Backend.constructor | 1/index.js:24-25 | the backend starts with both variables `null` |
| Service.Backend.TokenValid | 1/index.js:27-45 | the in-place `token_valid` leaves the state, token and auth call its pure step prescribes |
| Service.Backend.FetchPrices | 1/index.js:47-86 | the in-place `fetchPrices` (retry through `token_valid`) agrees with the pure fetch step |
| Service.Backend.StockRoute | 1/index.js:125-145 | the in-place stock handler agrees with the pure route step |
| Service.Backend.CorrelationRoute | 1/index.js:148-182 | the in-place correlation handler agrees with the pure route step |
| Service.StockRouteAnswers | 1/index.js:125-145 | the stock route answers with the fetched history and its average, or a 500 carrying the fetch error |
| Service.StockRouteRequests | 1/index.js:128-130 | every stock request of the stock route is for its ticker and a non-zero window |
| Service.CorrelationRejectsBeforeFetching | 1/index.js:153-155 | without exactly two tickers the route answers 400 with its message, sends no request and leaves the cache alone |
| Service.CorrelationFetchOrder | 1/index.js:157-158 | the first ticker's requests all precede the second's, all with the same window, at most four |
| Service.CorrelationReportContents | 1/index.js:160-175 | the report holds the Pearson correlation of the two histories and, per ticker, its average and history |
| Service.CorrelationStopsAtFirstFailure | 1/index.js:157-181 | a failed first fetch ends the route with a 500 before any request for the second ticker |
| Service.RoutesKeepConsistent | 1/index.js:125-182 | both routes keep a stored token paired with a stored expiry |
| Service.ServedCoefficientInRange | 1/index.js:160-164 | a served coefficient lies in [-1, 1], and `null` is served exactly for an undefined correlation |
| Heatmap.CorrelationColor | 2/src/pages/CorrelationHeatmap.js:42-57 | `getCorrelationColor`; a definition without a contract, specified by `Heatmap.ColourFollowsBands` and `Heatmap.WhiteMeansWeakOrMissing` |
| Heatmap.CellValue | 2/src/pages/CorrelationHeatmap.js:192-194 | the cell's correlation; a definition without a contract, specified by `Heatmap.CellLookup` |
| Heatmap.CellDisplay | 2/src/pages/CorrelationHeatmap.js:218-222 | the cell's text; a definition without a contract, specified by `Heatmap.CellLookup` and `Heatmap.CellDependsOnlyOnEntry` |
| Heatmap.CellColour | 2/src/pages/CorrelationHeatmap.js:210 | the cell's background; a definition without a contract, specified by `Heatmap.CellLookup` and `Heatmap.CellDependsOnlyOnEntry` |
| Heatmap.PopulationVariance | 2/src/pages/CorrelationHeatmap.js:117-121 | the variance `calculateStdDev` takes the root of; a definition without a contract, specified by `Heatmap.PopulationVarianceZeroIff` and `Heatmap.PopulationVersusSample` |
| Heatmap.IsStdDev | 2/src/pages/CorrelationHeatmap.js:122 | `Math.sqrt` in squared form; a definition without a contract, specified by `Heatmap.StdDevZeroIff` |
| Heatmap.AllPairs | 2/src/pages/CorrelationHeatmap.js:75-76 | the pairs the nested loops visit; a definition without a contract, specified by `Heatmap.AllPairsWellFormed`, `Heatmap.PairPosition` and `Heatmap.AllPairsCount` |
| Heatmap.Record | 2/src/pages/CorrelationHeatmap.js:86-98 | recording one answer; a definition without a contract, specified by `Heatmap.RecordAt` and `Heatmap.RecordKeepsSymmetric` |
| Heatmap.Throws | 2/src/pages/CorrelationHeatmap.js:80-98 | the loop body throws on an axios error or a report lacking `stocks[ticker]`; a definition without a contract, used by `Heatmap.RunRequests` and `Heatmap.ServerAnswerAsSeen` |
| Heatmap.ClientView | 2/src/pages/CorrelationHeatmap.js:80-84 | axios throws on a 400 or 500 and hands a report's `correlation` and `stocks` to the loop; a definition without a contract, used by `Heatmap.ServerAnswerAsSeen` |
| Heatmap.Step | 2/src/pages/CorrelationHeatmap.js:77-98 | one iteration of the pair loop; a definition without a contract, implemented by `Heatmap.FetchPair` |
| Heatmap.Run | 2/src/pages/CorrelationHeatmap.js:75-106 | the whole pair loop; a definition without a contract, implemented by `Heatmap.FetchCorrelations` and specified by `Heatmap.RunRequests`, `Heatmap.RunEntries`, `Heatmap.RunDetails` and `Heatmap.RunSymmetric` |
| Heatmap.BandOf | 2/src/pages/CorrelationHeatmap.js:42-57 | every number lies in one of the seven colour bands |
| Heatmap.BandsDisjoint | 2/src/pages/CorrelationHeatmap.js:46-56 | the bands are disjoint: a number lies in no other band |
| Heatmap.BandColoursDistinct | 2/src/pages/CorrelationHeatmap.js:46-56 | the seven band colours are pairwise different |
| Heatmap.ColourFollowsBands | 2/src/pages/CorrelationHeatmap.js:42-57 | the if-chain paints a number with a band's colour exactly when it lies in that band; `null` is white |
| Heatmap.WhiteMeansWeakOrMissing | 2/src/pages/CorrelationHeatmap.js:43-51 | a cell is white exactly when its correlation is missing or within [-0.1, 0.1] |
| Heatmap.CellDependsOnlyOnEntry | 2/src/pages/CorrelationHeatmap.js:192-222 | off the diagonal, a cell's text and colour depend only on the value the lookup finds, and a shown value is painted with its own colour |
| Heatmap.CellLookup | 2/src/pages/CorrelationHeatmap.js:192-222 | the diagonal shows 1.0000 in dark green; other cells show the stored value, or N/A on white exactly when none is stored |
| Heatmap.PopulationVarianceZeroIff | 2/src/pages/CorrelationHeatmap.js:117-122 | the page's variance is non-negative, 0 for a missing or empty history, and 0 exactly when all prices are equal |
| Heatmap.StdDevZeroIff | 2/src/pages/CorrelationHeatmap.js:117-123 | the standard deviation shown is 0 exactly when the history is missing, empty or constant |
| Heatmap.PopulationVersusSample | 2/src/pages/CorrelationHeatmap.js:120-121 | the page's variance times n equals the server's sample variance times n − 1 |
| Heatmap.RowExactly | 2/src/pages/CorrelationHeatmap.js:76 | row i of the inner loop holds exactly the pairs (i, j) with i < j < k, in increasing j |
| Heatmap.FetchPair | 2/src/pages/CorrelationHeatmap.js:77-98 | one iteration sends the pair's request and records its answer in both directions of the matrix and in both tickers' details, as the pair loop's specification prescribes, or ends the whole fetch when the answer throws |
| Heatmap.FetchRow | 2/src/pages/CorrelationHeatmap.js:76-99 | the inner loop advances the tables and requests as the pair loop's specification prescribes, or ends the whole fetch on a throw |
| Heatmap.FetchCorrelations | 2/src/pages/CorrelationHeatmap.js:72-107 | the nested loops produce exactly the tables and requests of the pair loop's specification over all pairs i < j |
| Heatmap.RunStopsAtFailure | 2/src/pages/CorrelationHeatmap.js:104-106 | once an answer throws, later pairs send nothing and nothing is published |
| Heatmap.AllPairsWellFormed | 2/src/pages/CorrelationHeatmap.js:75-76 | the loop visits only pairs i < j < k, in strictly increasing lexicographic order, so each at most once and never i = j |
| Heatmap.PairPosition | 2/src/pages/CorrelationHeatmap.js:75-76 | every pair i < j < k is visited, at a known position |
| Heatmap.RowsBeforeCount | 2/src/pages/CorrelationHeatmap.js:75-76 | the first i rows hold i(2k − i − 1)/2 pairs |
| Heatmap.AllPairsCount | 2/src/pages/CorrelationHeatmap.js:75-76 | k tickers give k(k − 1)/2 pairs |
| Heatmap.RunRequests | 2/src/pages/CorrelationHeatmap.js:75-82 | the requests are the pairs in visiting order with the selected window; all are sent and the tables published exactly when no answer throws, and otherwise the loop stops right after the first that does |
| Heatmap.RecordAt | 2/src/pages/CorrelationHeatmap.js:86-89 | recording a pair sets both directions to its correlation and changes no other entry |
| Heatmap.RecordKeepsSymmetric | 2/src/pages/CorrelationHeatmap.js:86-89 | recording a pair keeps the matrix symmetric |
| Heatmap.RunSymmetric | 2/src/pages/CorrelationHeatmap.js:86-89 | every published matrix is symmetric |
| Heatmap.RunNoDiagonal | 2/src/pages/CorrelationHeatmap.js:75-89 | with distinct tickers no diagonal entry is stored |
| Heatmap.RunEntries | 2/src/pages/CorrelationHeatmap.js:84-89 | each visited pair's entry holds, both ways, the correlation answered for its request |
| Heatmap.LastWith | 2/src/pages/CorrelationHeatmap.js:91-98 | the position of the last pair involving a ticker, with no later pair involving it |
| Heatmap.RunDetails | 2/src/pages/CorrelationHeatmap.js:91-98 | each ticker's details come from the last report that involved it; tickers in no pair have none |
| Heatmap.LastOfAllPairs | 2/src/pages/CorrelationHeatmap.js:75-98 | the last pair involving ticker x is (x, k−1), or (k−2, k−1) for the last ticker |
| Heatmap.FetchedHeatmap | 2/src/pages/CorrelationHeatmap.js:72-103 | a completed fetch sent k(k − 1)/2 requests; each off-diagonal cell, read either way, shows its pair's answered correlation; each ticker's details come from its last pair |
| Heatmap.AvailableStocksRequests | 2/src/pages/CorrelationHeatmap.js:17-38 | the three configured stocks are distinct and are requested as AMD–GOOGL, AMD–GOOG, GOOGL–GOOG |
| Heatmap.ServerReadsPairRequest | 2/src/pages/CorrelationHeatmap.js:40 | every window the selector offers reaches the server unchanged, and the two tickers arrive as a pair in order |
| Heatmap.ServerAnswerAsSeen | 2/src/pages/CorrelationHeatmap.js:80-98 | the server's answer is usable by the page exactly when both upstream fetches delivered, and then its coefficient lies in [-1, 1] or is `null` |

## Left out

- HTTP transport, Express, CORS, dotenv and timeouts: upstream and server answers are parameters (`Fetcher.Upstream`, the `respond` function of the page).
- `Date.now()`: clock readings are parameters. The expiry is computed from the reading taken after `/auth` answers (`AuthGranted.receivedAt`).
- Concurrency: requests are modelled one at a time. The source does nothing to serialise token refreshes.
- Floating point: prices are exact reals. Rounding, `toFixed`, and the precision of `parseInt` on very long numerals are not modelled.
- Square roots: `Math.sqrt` in `findCorr` and `calculateStdDev` is stated in squared form (`Statistics.IsCoefficient`, `Heatmap.IsStdDev`).
- JSON: `res.json` is modelled only as NaN becoming `null` (`Service.SerializesTo`).
- A malformed `/auth` answer is not modelled. A body without `access_token` or `expires_in` would store `undefined` or a NaN expiry; a `null` body would throw a TypeError at line 36, which the catch at lines 41-44 turns into the authentication error.
- Error messages: `error.message` is modelled as a `Types.Failure` value, and `console.error` logging is left out.
- React rendering, hover state, the loading flag, the effect that re-fetches when the window changes, and the tooltip text (it follows the same three cases as the cell text).
- A failed fetch leaves the previously published matrix and details on screen. The model reports that nothing was published (`None`); keeping the previous tables is React state and is not modelled.
- `2/src/App.js` and `2/src/pages/StockPage.js` are not part of this model. They contain routing, the single-stock page's fetch of `/stocks/:ticker` and its chart.
- Service routes: `Service.StockRouteStep`, `Service.CorrelationRouteStep` and `Service.Backend.FetchPrices` use the intended retry (`Fetcher.FetchStep`). As written, a 401 from `/stocks` makes the route answer 500 carrying the ReferenceError (`Fetcher.FetchStepAsWritten`), so on that path `Service.StockRouteAnswers`, `Service.ServedCoefficientInRange` and `Heatmap.ServerAnswerAsSeen` describe the intended backend.
- Heatmap.RunNoDiagonal, Heatmap.RunEntries, Heatmap.RunDetails, Heatmap.FetchedHeatmap: require distinct tickers. The page's tickers are the keys of one object, so they are always distinct (`Heatmap.AvailableStocksRequests`).

## Findings

| source | as written | input that shows it | evidently intended | confidence | as-written member | corrected member |
|---|---|---|---|---|---|---|
| 1/index.js:67 | the retry after a 401 calls `getValidToken`, which is defined nowhere, so it throws a ReferenceError and the catch at line 77 rethrows it; no retry is ever sent | first stock request answered 401, `/auth` grants a new token, and the retried request would deliver the history | re-acquire the token with `token_valid` and send the request once more | not executed | Fetcher.AsWrittenLosesRecoverableRequest | Fetcher.UnauthorizedRetriesOnce |
