/**
 * The client-side logic of 2/src/pages/CorrelationHeatmap.js: the colour
 * banding of a correlation, the cell lookup of the matrix, and the
 * population standard deviation shown for a hovered stock.
 *
 * A correlation that reached the client as JSON `null` (NaN on the server)
 * is `None`.
 */
module Heatmap {
  import opened Types
  import opened Statistics
  import opened Query
  import opened Credentials
  import opened Fetcher
  import opened Service

  const White: string := "#FFFFFF"

  /** `getCorrelationColor(correlation)`: the if-chain of the source. */
  function CorrelationColor(c: Option<real>): string
  {
    if c.None? then White
    else
      var x := c.value;
      if x < -0.5 then "#8B0000"
      else if x < -0.3 then "#FF4500"
      else if x < -0.1 then "#FF6347"
      else if x >= -0.1 && x <= 0.1 then White
      else if x <= 0.3 then "#90EE90"
      else if x <= 0.5 then "#3CB371"
      else "#006400"
  }

  // ---- The colour scale as a table of intervals ----

  /** One end of an interval: none, closed at `at`, or open at `at`. */
  datatype Bound = Unbounded | Closed(at: real) | Open(at: real)

  /** An interval of correlations and the colour it is painted with. */
  datatype Band = Band(low: Bound, high: Bound, colour: string)

  predicate AboveLow(b: Bound, x: real)
  {
    match b
    case Unbounded => true
    case Closed(a) => a <= x
    case Open(a) => a < x
  }

  predicate BelowHigh(b: Bound, x: real)
  {
    match b
    case Unbounded => true
    case Closed(a) => x <= a
    case Open(a) => x < a
  }

  predicate InBand(band: Band, x: real)
  {
    AboveLow(band.low, x) && BelowHigh(band.high, x)
  }

  /** The scale the heatmap paints with, from strong negative to strong positive correlation. */
  const Bands: seq<Band> := [
    Band(Unbounded, Open(-0.5), "#8B0000"),
    Band(Closed(-0.5), Open(-0.3), "#FF4500"),
    Band(Closed(-0.3), Open(-0.1), "#FF6347"),
    Band(Closed(-0.1), Closed(0.1), White),
    Band(Open(0.1), Closed(0.3), "#90EE90"),
    Band(Open(0.3), Closed(0.5), "#3CB371"),
    Band(Open(0.5), Unbounded, "#006400")
  ]

  /** The band a number falls in. */
  function BandOf(x: real): (i: nat)
    ensures i < |Bands| && InBand(Bands[i], x)
  {
    if x < -0.5 then 0
    else if x < -0.3 then 1
    else if x < -0.1 then 2
    else if x <= 0.1 then 3
    else if x <= 0.3 then 4
    else if x <= 0.5 then 5
    else 6
  }

  /** The bands are disjoint: a number lies in exactly one of them. */
  lemma {:induction false} BandsDisjoint(x: real, i: nat)
    requires i < |Bands| && InBand(Bands[i], x)
    ensures i == BandOf(x)
  {
  }

  /** The seven colours of the scale are pairwise different. */
  lemma {:induction false} BandColoursDistinct()
    ensures forall i, j :: 0 <= i < j < |Bands| ==> Bands[i].colour != Bands[j].colour
  {
  }

  /**
   * The if-chain paints every number with the colour of its band, and a
   * number is painted with a band's colour exactly when it lies in that band;
   * `null` is white.
   */
  lemma {:induction false} ColourFollowsBands(x: real)
    ensures CorrelationColor(Some(x)) == Bands[BandOf(x)].colour
    ensures forall i :: 0 <= i < |Bands| ==> (CorrelationColor(Some(x)) == Bands[i].colour <==> InBand(Bands[i], x))
    ensures CorrelationColor(None) == White
  {
    BandColoursDistinct();
    forall i | 0 <= i < |Bands|
      ensures CorrelationColor(Some(x)) == Bands[i].colour <==> InBand(Bands[i], x)
    {
      if InBand(Bands[i], x) {
        BandsDisjoint(x, i);
      }
    }
  }

  /** A correlation at or near zero, and a missing one, are both white. */
  lemma {:induction false} WhiteMeansWeakOrMissing(c: Option<real>)
    ensures CorrelationColor(c) == White <==> c.None? || -0.1 <= c.value <= 0.1
  {
  }

  // ---- Cell lookup ----

  /** `matrix[row][col]`: rows of the matrix, each mapping a column ticker to a correlation or `null`. */
  type Matrix = map<string, map<string, Option<real>>>

  /** `row === col ? 1 : (matrix[row]?.[col] ?? null)`. */
  function CellValue(matrix: Matrix, row: string, col: string): Option<real>
  {
    if row == col then Some(1.0)
    else if row in matrix && col in matrix[row] then matrix[row][col]
    else None
  }

  /** The text of a cell: `'1.0000'` on the diagonal, the value to four places, or `'N/A'`. */
  datatype CellText = SameStock | Fixed(value: real) | NotAvailable

  function CellDisplay(matrix: Matrix, row: string, col: string): CellText
  {
    if row == col then SameStock
    else match CellValue(matrix, row, col)
      case Some(v) => Fixed(v)
      case None => NotAvailable
  }

  /** The cell's background. */
  function CellColour(matrix: Matrix, row: string, col: string): string
  {
    CorrelationColor(CellValue(matrix, row, col))
  }

  /**
   * The diagonal shows 1 in dark green; off the diagonal a cell shows the
   * stored value, and `N/A` on white exactly when there is none (no row, no
   * entry, or a stored `null`).
   */
  lemma {:induction false} CellLookup(matrix: Matrix, row: string, col: string)
    ensures row == col ==>
      CellValue(matrix, row, col) == Some(1.0) && CellDisplay(matrix, row, col) == SameStock &&
      CellColour(matrix, row, col) == "#006400"
    ensures row != col ==>
      (CellDisplay(matrix, row, col) == NotAvailable <==>
        !(row in matrix && col in matrix[row] && matrix[row][col].Some?))
    ensures row != col && row in matrix && col in matrix[row] && matrix[row][col].Some? ==>
      CellDisplay(matrix, row, col) == Fixed(matrix[row][col].value)
    ensures CellDisplay(matrix, row, col) == NotAvailable ==> CellColour(matrix, row, col) == White
  {
  }

  /**
   * Off the diagonal, what a cell shows and its colour depend only on what
   * the lookup `matrix[row]?.[col] ?? null` finds: two matrices that agree
   * there paint and label the cell alike, and a value shown is painted with
   * that value's colour.
   */
  lemma {:induction false} CellDependsOnlyOnEntry(m1: Matrix, m2: Matrix, row: string, col: string)
    requires row != col
    requires CellValue(m1, row, col) == CellValue(m2, row, col)
    ensures CellDisplay(m1, row, col) == CellDisplay(m2, row, col)
    ensures CellColour(m1, row, col) == CellColour(m2, row, col)
    ensures CellDisplay(m1, row, col).Fixed? ==>
      CellColour(m1, row, col) == CorrelationColor(Some(CellDisplay(m1, row, col).value))
  {
  }

  // ---- Standard deviation of a hovered stock ----

  /** The variance `calculateStdDev` takes the root of: mean squared deviation, denominator n; 0 when missing or empty. */
  function PopulationVariance(h: Option<seq<PricePoint>>): real
  {
    if h.None? || |h.value| == 0 then 0.0
    else
      var xs := Prices(h.value);
      var d := Deviations(xs, Mean(xs));
      Dot(d, d) / |xs| as real
  }

  /** `s` is `Math.sqrt` of the population variance, stated without a square root. */
  predicate IsStdDev(s: real, h: Option<seq<PricePoint>>)
  {
    s >= 0.0 && s * s == PopulationVariance(h)
  }

  /**
   * The variance is never negative, 0 for a missing or empty history, and
   * zero exactly when all prices are equal.
   */
  lemma {:induction false} PopulationVarianceZeroIff(h: Option<seq<PricePoint>>)
    ensures PopulationVariance(h) >= 0.0
    ensures PopulationVariance(h) == 0.0 <==> h.None? || Constant(Prices(h.value))
  {
    if h.Some? && |h.value| > 0 {
      var xs := Prices(h.value);
      var d := Deviations(xs, Mean(xs));
      SquaresNonNegative(d);
      VarianceZeroIffConstant(xs);
      QuotientSign(Dot(d, d), |xs| as real);
    }
  }

  /** The standard deviation shown is 0 exactly when all prices are equal or there are none. */
  lemma {:induction false} StdDevZeroIff(s: real, h: Option<seq<PricePoint>>)
    requires IsStdDev(s, h)
    ensures s == 0.0 <==> h.None? || Constant(Prices(h.value))
  {
    PopulationVarianceZeroIff(h);
    RootZeroIff(s, PopulationVariance(h));
  }

  lemma {:induction false} RootZeroIff(s: real, v: real)
    requires s * s == v
    ensures s == 0.0 <==> v == 0.0
  {
    if v == 0.0 {
      ProductZero(s, s);
    }
    if s == 0.0 {
      ZeroSquare(s);
    }
  }

  lemma {:induction false} QuotientTimes(x: real, d: real)
    requires d != 0.0
    ensures (x / d) * d == x
  {
  }

  /**
   * The client's variance (denominator n) and the server's (denominator
   * n - 1) differ only by that factor: both times their denominators give
   * the same sum of squared deviations.
   */
  lemma {:induction false} PopulationVersusSample(h: seq<PricePoint>)
    requires |h| >= 2 && Pearson(h, h).Defined?
    ensures PopulationVariance(Some(h)) * |h| as real == Pearson(h, h).varA * (|h| - 1) as real
  {
    assert h[..|h|] == h;
    var xs := Prices(h);
    var d := Deviations(xs, Mean(xs));
    QuotientTimes(Dot(d, d), |h| as real);
    QuotientTimes(Dot(d, d), (|h| - 1) as real);
  }

  // ---- Fetching the pairwise correlations ----

  /** `GET /stockcorrelation?minutes=<minutes>&ticker=<ticker1>&ticker=<ticker2>`. */
  datatype PairRequest = PairRequest(minutes: int, ticker1: string, ticker2: string)

  /**
   * What the client sees of one request: a report (its `correlation` and its
   * `stocks` map), or an error axios throws (any non-2xx status or no answer).
   */
  datatype PairResponse = PairOk(correlation: Option<real>, stocks: map<string, StockSummary>) | PairFailed

  /** The two objects `fetchCorrelations` builds: the matrix and the per-ticker details. */
  datatype Tables = Tables(matrix: Matrix, details: map<string, StockSummary>)

  /** The tables so far (`None` once an error was thrown) and the requests sent. */
  datatype Progress = Progress(tables: Option<Tables>, requests: seq<PairRequest>)

  /** The pairs `(i, j)` of row `i` of the nested loop, `j` from `i + 1` to `k - 1`. */
  function Row(i: nat, k: nat): (r: seq<(nat, nat)>)
    ensures |r| == if i < k then k - 1 - i else 0
    ensures forall t :: 0 <= t < |r| ==> r[t] == (i, i + 1 + t)
  {
    seq(if i < k then k - 1 - i else 0, t requires 0 <= t => (i, i + 1 + t))
  }

  /**
   * Row `i` holds exactly the pairs `(i, j)` with `i < j < k`, each once, in
   * increasing `j`: the range of the inner loop `for (let j = i + 1; j < k; j++)`.
   */
  lemma {:induction false} RowExactly(i: nat, k: nat, a: nat, b: nat)
    ensures (a, b) in Row(i, k) <==> a == i && i < b < k
    ensures forall s, t :: 0 <= s < t < |Row(i, k)| ==> Row(i, k)[s].1 < Row(i, k)[t].1
  {
    if a == i && i < b < k {
      assert Row(i, k)[b - i - 1] == (a, b);
    }
  }

  /** The pairs of the first `i` rows, in the order the loop visits them. */
  function RowsBefore(i: nat, k: nat): seq<(nat, nat)>
  {
    if i == 0 then [] else RowsBefore(i - 1, k) + Row(i - 1, k)
  }

  /** Every index pair the nested loop over `k` tickers visits. */
  function AllPairs(k: nat): seq<(nat, nat)>
  {
    RowsBefore(k, k)
  }

  predicate InRange(pairs: seq<(nat, nat)>, k: nat)
  {
    forall t :: 0 <= t < |pairs| ==> pairs[t].0 < k && pairs[t].1 < k
  }

  /** Record one answered pair: `matrix[t1][t2]`, `matrix[t2][t1]`, `details[t1]` and `details[t2]`. */
  function Record(t: Tables, t1: string, t2: string, c: Option<real>, stocks: map<string, StockSummary>): Tables
    requires t1 in stocks && t2 in stocks
  {
    var m1 := if t1 in t.matrix then t.matrix else t.matrix[t1 := map[]];
    var m2 := if t2 in m1 then m1 else m1[t2 := map[]];
    var m3 := m2[t1 := m2[t1][t2 := c]];
    var m4 := m3[t2 := m3[t2][t1 := c]];
    Tables(m4, t.details[t1 := stocks[t1]][t2 := stocks[t2]])
  }

  /**
   * One iteration of the inner loop: send the request, then record the
   * answer, or abandon everything when axios throws or the report lacks
   * one of the two tickers (`response.data.stocks[ticker]` is `undefined`
   * and reading its fields throws a TypeError).
   */
  function Step(tickers: seq<string>, minutes: int, p: Progress, pair: (nat, nat), response: PairResponse): Progress
    requires pair.0 < |tickers| && pair.1 < |tickers|
  {
    match p.tables
    case None => p
    case Some(t) =>
      var t1 := tickers[pair.0];
      var t2 := tickers[pair.1];
      var requests := p.requests + [PairRequest(minutes, t1, t2)];
      match response
      case PairFailed => Progress(None, requests)
      case PairOk(c, stocks) =>
        if t1 in stocks && t2 in stocks then Progress(Some(Record(t, t1, t2, c, stocks)), requests)
        else Progress(None, requests)
  }

  /**
   * The loop over `pairs`, where the `n`-th request sent is answered by
   * `respond(n)` (the server's answers depend on its own state, so they are
   * indexed by position rather than by request).
   */
  function Run(tickers: seq<string>, minutes: int, respond: nat -> PairResponse, pairs: seq<(nat, nat)>): Progress
    requires InRange(pairs, |tickers|)
  {
    if pairs == [] then Progress(Some(Tables(map[], map[])), [])
    else
      var n := |pairs| - 1;
      var p := Run(tickers, minutes, respond, pairs[..n]);
      Step(tickers, minutes, p, pairs[n], respond(|p.requests|))
  }

  lemma {:induction false} RowsBeforeInRange(i: nat, k: nat)
    ensures InRange(RowsBefore(i, k), k)
  {
    if i > 0 {
      RowsBeforeInRange(i - 1, k);
    }
  }

  /** Once the loop has thrown, later pairs change nothing. */
  lemma {:induction false} RunStopsAtFailure(tickers: seq<string>, minutes: int, respond: nat -> PairResponse, sent: seq<(nat, nat)>, rest: seq<(nat, nat)>)
    requires InRange(sent + rest, |tickers|)
    requires InRange(sent, |tickers|) && Run(tickers, minutes, respond, sent).tables.None?
    ensures Run(tickers, minutes, respond, sent + rest) == Run(tickers, minutes, respond, sent)
    decreases |rest|
  {
    if rest == [] {
      assert sent + rest == sent;
    } else {
      var n := |rest| - 1;
      assert (sent + rest)[..|sent + rest| - 1] == sent + rest[..n];
      RunStopsAtFailure(tickers, minutes, respond, sent, rest[..n]);
    }
  }

  /** Prefix facts the loops need: the pairs sent after one more iteration extend the pairs sent before by `(i, j)`. */
  lemma {:induction false} NextPair(i: nat, j: nat, k: nat)
    requires i < j < k
    ensures var before := RowsBefore(i, k) + Row(i, k)[..j - i - 1];
      var after := RowsBefore(i, k) + Row(i, k)[..j - i];
      after[..|after| - 1] == before && after[|after| - 1] == (i, j)
  {
    Extend(RowsBefore(i, k), Row(i, k), j - i - 1);
  }

  lemma {:induction false} Extend<T>(d: seq<T>, r: seq<T>, m: nat)
    requires m < |r|
    ensures var after := d + r[..m + 1];
      after[..|after| - 1] == d + r[..m] && after[|after| - 1] == r[m]
  {
    var after := d + r[..m + 1];
    assert after[..|after| - 1] == d + r[..m];
  }

  /** The pairs of rows `i` to `k - 1`. */
  function RowsFrom(i: nat, k: nat): seq<(nat, nat)>
    decreases k - i
  {
    if i >= k then [] else Row(i, k) + RowsFrom(i + 1, k)
  }

  lemma {:induction false} AllPairsSplit(i: nat, k: nat)
    requires i <= k
    ensures AllPairs(k) == RowsBefore(i, k) + RowsFrom(i, k)
    decreases k - i
  {
    if i < k {
      AllPairsSplit(i + 1, k);
      assert RowsBefore(i + 1, k) == RowsBefore(i, k) + Row(i, k);
      assert RowsFrom(i, k) == Row(i, k) + RowsFrom(i + 1, k);
    }
  }

  /** After `m` pairs of row `i`, the pairs still to come. */
  lemma {:induction false} Remaining(i: nat, m: nat, k: nat)
    requires i < k && m <= |Row(i, k)|
    ensures AllPairs(k) == (RowsBefore(i, k) + Row(i, k)[..m]) + (Row(i, k)[m..] + RowsFrom(i + 1, k))
  {
    AllPairsSplit(i, k);
    assert RowsFrom(i, k) == Row(i, k) + RowsFrom(i + 1, k);
    Cut(RowsBefore(i, k), Row(i, k), RowsFrom(i + 1, k), m);
  }

  lemma {:induction false} Cut<T>(d: seq<T>, r: seq<T>, rest: seq<T>, m: nat)
    requires m <= |r|
    ensures d + (r + rest) == (d + r[..m]) + (r[m..] + rest)
  {
    assert r == r[..m] + r[m..];
  }

  /** The pairs sent up to and including `(i, j - 1)`: all earlier rows and the start of row `i`. */
  function SentBefore(i: nat, j: nat, k: nat): seq<(nat, nat)>
    requires i < j <= k
  {
    RowsBefore(i, k) + Row(i, k)[..j - i - 1]
  }

  /** One more iteration of the inner loop is one more `Step`. */
  lemma {:induction false} RunNext(tickers: seq<string>, minutes: int, respond: nat -> PairResponse, i: nat, j: nat)
    requires i < j < |tickers|
    requires InRange(SentBefore(i, j, |tickers|), |tickers|)
    ensures InRange(SentBefore(i, j + 1, |tickers|), |tickers|)
    ensures var p := Run(tickers, minutes, respond, SentBefore(i, j, |tickers|));
      Run(tickers, minutes, respond, SentBefore(i, j + 1, |tickers|)) ==
      Step(tickers, minutes, p, (i, j), respond(|p.requests|))
  {
    NextPair(i, j, |tickers|);
  }

  /** A thrown error in row `i` ends the whole fetch. */
  lemma {:induction false} Abandoned(tickers: seq<string>, minutes: int, respond: nat -> PairResponse, i: nat, j: nat)
    requires i < j < |tickers|
    requires InRange(AllPairs(|tickers|), |tickers|) && InRange(SentBefore(i, j + 1, |tickers|), |tickers|)
    requires Run(tickers, minutes, respond, SentBefore(i, j + 1, |tickers|)).tables.None?
    ensures Run(tickers, minutes, respond, AllPairs(|tickers|)) == Run(tickers, minutes, respond, SentBefore(i, j + 1, |tickers|))
  {
    var k := |tickers|;
    Remaining(i, j - i, k);
    RunStopsAtFailure(tickers, minutes, respond, SentBefore(i, j + 1, k), Row(i, k)[j - i..] + RowsFrom(i + 1, k));
  }

  /** A usable answer makes `Step` record the pair. */
  lemma {:induction false} StepRecords(tickers: seq<string>, minutes: int, t: Tables, requests: seq<PairRequest>,
                                      pair: (nat, nat), response: PairResponse)
    requires pair.0 < |tickers| && pair.1 < |tickers|
    requires !Throws(response, tickers[pair.0], tickers[pair.1])
    ensures var t1, t2 := tickers[pair.0], tickers[pair.1];
      Step(tickers, minutes, Progress(Some(t), requests), pair, response) ==
      Progress(Some(Record(t, t1, t2, response.correlation, response.stocks)), requests + [PairRequest(minutes, t1, t2)])
  {
  }

  /** A usable answer to pair `(i, j)` records it, and the loop moves on to `j + 1`. */
  lemma {:induction false} RowAdvances(tickers: seq<string>, minutes: int, respond: nat -> PairResponse, i: nat, j: nat,
                                      tables: Tables, sent: seq<PairRequest>)
    requires i < j < |tickers| && InRange(SentBefore(i, j, |tickers|), |tickers|)
    requires Run(tickers, minutes, respond, SentBefore(i, j, |tickers|)) == Progress(Some(tables), sent)
    requires !Throws(respond(|sent|), tickers[i], tickers[j])
    ensures InRange(SentBefore(i, j + 1, |tickers|), |tickers|)
    ensures var response := respond(|sent|);
      Run(tickers, minutes, respond, SentBefore(i, j + 1, |tickers|)) ==
      Progress(Some(Record(tables, tickers[i], tickers[j], response.correlation, response.stocks)),
               sent + [PairRequest(minutes, tickers[i], tickers[j])])
  {
    RunNext(tickers, minutes, respond, i, j);
    StepRecords(tickers, minutes, tables, sent, (i, j), respond(|sent|));
  }

  /** An answer to pair `(i, j)` that throws ends the whole fetch with nothing published. */
  lemma {:induction false} RowThrows(tickers: seq<string>, minutes: int, respond: nat -> PairResponse, i: nat, j: nat,
                                    tables: Tables, sent: seq<PairRequest>)
    requires i < j < |tickers| && InRange(SentBefore(i, j, |tickers|), |tickers|)
    requires InRange(AllPairs(|tickers|), |tickers|)
    requires Run(tickers, minutes, respond, SentBefore(i, j, |tickers|)) == Progress(Some(tables), sent)
    requires Throws(respond(|sent|), tickers[i], tickers[j])
    ensures Run(tickers, minutes, respond, AllPairs(|tickers|)) ==
      Progress(None, sent + [PairRequest(minutes, tickers[i], tickers[j])])
  {
    RunNext(tickers, minutes, respond, i, j);
    Abandoned(tickers, minutes, respond, i, j);
  }

  /**
   * One iteration of the inner loop, for pair `(i, j)`: request it, then
   * fill both directions of the matrix and both tickers' details; `None`
   * once an error is thrown.
   */
  method FetchPair(tickers: seq<string>, minutes: int, respond: nat -> PairResponse, i: nat, j: nat,
                   matrix0: Matrix, details0: map<string, StockSummary>, requests0: seq<PairRequest>)
    returns (result: Option<Tables>, requests: seq<PairRequest>)
    requires i < j < |tickers|
    requires InRange(AllPairs(|tickers|), |tickers|) && InRange(SentBefore(i, j, |tickers|), |tickers|)
    requires Run(tickers, minutes, respond, SentBefore(i, j, |tickers|)) == Progress(Some(Tables(matrix0, details0)), requests0)
    ensures InRange(SentBefore(i, j + 1, |tickers|), |tickers|)
    ensures result.Some? ==> Run(tickers, minutes, respond, SentBefore(i, j + 1, |tickers|)) == Progress(result, requests)
    ensures result.None? ==> Run(tickers, minutes, respond, AllPairs(|tickers|)) == Progress(result, requests)
  {
    RunNext(tickers, minutes, respond, i, j);
    var matrix, details := matrix0, details0;
    var ticker1 := tickers[i];
    var ticker2 := tickers[j];
    var response := respond(|requests0|);
    requests := requests0 + [PairRequest(minutes, ticker1, ticker2)];
    if response.PairFailed? {
      RowThrows(tickers, minutes, respond, i, j, Tables(matrix0, details0), requests0);
      return None, requests;
    }
    var correlation := response.correlation;
    if ticker1 !in matrix {
      matrix := matrix[ticker1 := map[]];
    }
    if ticker2 !in matrix {
      matrix := matrix[ticker2 := map[]];
    }
    matrix := matrix[ticker1 := matrix[ticker1][ticker2 := correlation]];
    matrix := matrix[ticker2 := matrix[ticker2][ticker1 := correlation]];
    if ticker1 !in response.stocks || ticker2 !in response.stocks {
      RowThrows(tickers, minutes, respond, i, j, Tables(matrix0, details0), requests0);
      return None, requests;
    }
    details := details[ticker1 := response.stocks[ticker1]];
    details := details[ticker2 := response.stocks[ticker2]];
    assert Tables(matrix, details) == Record(Tables(matrix0, details0), ticker1, ticker2, correlation, response.stocks);
    RowAdvances(tickers, minutes, respond, i, j, Tables(matrix0, details0), requests0);
    result := Some(Tables(matrix, details));
  }

  /** The pairs with `j < k` in row `i`, sent one after the other; `None` once an error was thrown. */
  method FetchRow(tickers: seq<string>, minutes: int, respond: nat -> PairResponse, i: nat,
                  matrix0: Matrix, details0: map<string, StockSummary>, requests0: seq<PairRequest>)
    returns (result: Option<Tables>, requests: seq<PairRequest>)
    requires i < |tickers|
    requires InRange(AllPairs(|tickers|), |tickers|) && InRange(RowsBefore(i, |tickers|), |tickers|)
    requires Run(tickers, minutes, respond, RowsBefore(i, |tickers|)) == Progress(Some(Tables(matrix0, details0)), requests0)
    ensures result.Some? ==> Run(tickers, minutes, respond, RowsBefore(i + 1, |tickers|)) == Progress(result, requests)
    ensures result.None? ==> Run(tickers, minutes, respond, AllPairs(|tickers|)) == Progress(result, requests)
  {
    var k := |tickers|;
    var matrix, details := matrix0, details0;
    requests := requests0;
    assert SentBefore(i, i + 1, k) == RowsBefore(i, k);
    var j := i + 1;
    while j < k
      invariant i + 1 <= j <= k
      invariant InRange(SentBefore(i, j, k), k)
      invariant Run(tickers, minutes, respond, SentBefore(i, j, k)) == Progress(Some(Tables(matrix, details)), requests)
    {
      var pair;
      pair, requests := FetchPair(tickers, minutes, respond, i, j, matrix, details, requests);
      if pair.None? {
        return None, requests;
      }
      matrix, details := pair.value.matrix, pair.value.details;
      j := j + 1;
    }
    assert SentBefore(i, j, k) == RowsBefore(i + 1, k);
    result := Some(Tables(matrix, details));
  }

  /**
   * `fetchCorrelations`: for every `i < j` request the pair, fill both
   * directions of the matrix and both tickers' details; any thrown error
   * abandons the whole fetch (the catch only logs, and neither table is
   * published).
   */
  method FetchCorrelations(tickers: seq<string>, minutes: int, respond: nat -> PairResponse)
    returns (result: Option<Tables>, requests: seq<PairRequest>)
    ensures InRange(AllPairs(|tickers|), |tickers|)
    ensures Progress(result, requests) == Run(tickers, minutes, respond, AllPairs(|tickers|))
  {
    var k := |tickers|;
    RowsBeforeInRange(k, k);
    var matrix: Matrix := map[];
    var details: map<string, StockSummary> := map[];
    requests := [];
    var i := 0;
    while i < k
      invariant 0 <= i <= k
      invariant InRange(RowsBefore(i, k), k)
      invariant Run(tickers, minutes, respond, RowsBefore(i, k)) == Progress(Some(Tables(matrix, details)), requests)
    {
      var row;
      row, requests := FetchRow(tickers, minutes, respond, i, matrix, details, requests);
      if row.None? {
        return None, requests;
      }
      matrix, details := row.value.matrix, row.value.details;
      i := i + 1;
      RowsBeforeInRange(i, k);
    }
    result := Some(Tables(matrix, details));
  }

  // ---- The pairs the loop visits ----

  /** Lexicographic order on index pairs. */
  predicate Before(a: (nat, nat), b: (nat, nat))
  {
    a.0 < b.0 || (a.0 == b.0 && a.1 < b.1)
  }

  /** Index pairs below `k`, smaller index first, in strictly increasing lexicographic order. */
  predicate WellFormed(pairs: seq<(nat, nat)>, k: nat)
  {
    (forall t :: 0 <= t < |pairs| ==> pairs[t].0 < pairs[t].1 < k) &&
    (forall s, t :: 0 <= s < t < |pairs| ==> Before(pairs[s], pairs[t]))
  }

  lemma {:induction false} RowsBeforeWellFormed(i: nat, k: nat)
    ensures WellFormed(RowsBefore(i, k), k)
    ensures forall t :: 0 <= t < |RowsBefore(i, k)| ==> RowsBefore(i, k)[t].0 < i
  {
    if i > 0 {
      RowsBeforeWellFormed(i - 1, k);
      var d, r := RowsBefore(i - 1, k), Row(i - 1, k);
      assert RowsBefore(i, k) == d + r;
      forall s, t | 0 <= s < t < |d + r|
        ensures Before((d + r)[s], (d + r)[t])
      {
        if t < |d| {
        } else if s >= |d| {
          assert (d + r)[s] == r[s - |d|] && (d + r)[t] == r[t - |d|];
        } else {
          assert (d + r)[s] == d[s] && (d + r)[t] == r[t - |d|];
        }
      }
    }
  }

  /** The loop visits every pair `i < j < k` exactly once, in lexicographic order, and nothing else. */
  lemma {:induction false} AllPairsWellFormed(k: nat)
    ensures WellFormed(AllPairs(k), k)
  {
    RowsBeforeWellFormed(k, k);
  }

  /** Where pair `(a, b)` sits in the visiting order: after the `a` earlier rows. */
  function PairIndex(a: nat, b: nat, k: nat): nat
    requires a < b
  {
    |RowsBefore(a, k)| + (b - a - 1)
  }

  lemma {:induction false} PairPosition(a: nat, b: nat, k: nat)
    requires a < b < k
    ensures PairIndex(a, b, k) < |AllPairs(k)| && AllPairs(k)[PairIndex(a, b, k)] == (a, b)
  {
    AllPairsSplit(a, k);
    var d, r, rest := RowsBefore(a, k), Row(a, k), RowsFrom(a + 1, k);
    assert AllPairs(k) == d + (r + rest);
    assert (d + (r + rest))[|d| + (b - a - 1)] == r[b - a - 1];
  }

  /** Rows `0` to `i - 1` hold `(k - 1) + ... + (k - i)` pairs. */
  lemma {:induction false} RowsBeforeCount(i: nat, k: nat)
    requires i <= k
    ensures |RowsBefore(i, k)| * 2 == i * (2 * k - i - 1)
  {
    if i > 0 {
      RowsBeforeCount(i - 1, k);
      assert |RowsBefore(i, k)| == |RowsBefore(i - 1, k)| + (k - i);
      CountStep(i, k);
    }
  }

  lemma {:induction false} CountStep(i: int, k: int)
    ensures (i - 1) * (2 * k - (i - 1) - 1) + 2 * (k - i) == i * (2 * k - i - 1)
  {
  }

  /** `k` tickers give `k (k - 1) / 2` requests. */
  lemma {:induction false} AllPairsCount(k: nat)
    ensures |AllPairs(k)| * 2 == k * (k - 1)
  {
    RowsBeforeCount(k, k);
  }

  // ---- What the loop sends and builds ----

  /** An answer that makes the loop throw: an axios error, or a report lacking one of the two tickers. */
  predicate Throws(response: PairResponse, t1: string, t2: string)
  {
    response.PairFailed? || t1 !in response.stocks || t2 !in response.stocks
  }

  /** Request `t` is the request for the `t`-th pair, with the selected window. */
  predicate SentInOrder(tickers: seq<string>, minutes: int, pairs: seq<(nat, nat)>, requests: seq<PairRequest>)
    requires InRange(pairs, |tickers|)
  {
    |requests| <= |pairs| &&
    forall t :: 0 <= t < |requests| ==> requests[t] == PairRequest(minutes, tickers[pairs[t].0], tickers[pairs[t].1])
  }

  /** None of the answers to the first `n` requests throws. */
  predicate AnswersUsable(tickers: seq<string>, respond: nat -> PairResponse, pairs: seq<(nat, nat)>, n: nat)
    requires InRange(pairs, |tickers|) && n <= |pairs|
  {
    forall t :: 0 <= t < n ==> !Throws(respond(t), tickers[pairs[t].0], tickers[pairs[t].1])
  }

  /**
   * The requests are the pairs in visiting order. When every answer is
   * usable all of them are sent and the tables are published; otherwise
   * the loop stops right after the first answer that throws.
   */
  lemma {:induction false} RunRequests(tickers: seq<string>, minutes: int, respond: nat -> PairResponse, pairs: seq<(nat, nat)>)
    requires InRange(pairs, |tickers|)
    ensures var p := Run(tickers, minutes, respond, pairs);
      SentInOrder(tickers, minutes, pairs, p.requests) &&
      (p.tables.Some? ==> |p.requests| == |pairs| && AnswersUsable(tickers, respond, pairs, |pairs|)) &&
      (p.tables.None? ==>
        0 < |p.requests| && AnswersUsable(tickers, respond, pairs, |p.requests| - 1) &&
        Throws(respond(|p.requests| - 1), tickers[pairs[|p.requests| - 1].0], tickers[pairs[|p.requests| - 1].1]))
  {
    if pairs != [] {
      var n := |pairs| - 1;
      var front := pairs[..n];
      RunLast(tickers, minutes, respond, pairs);
      RunRequests(tickers, minutes, respond, front);
      var prev := Run(tickers, minutes, respond, front);
      FrontAgrees(tickers, minutes, respond, pairs, prev.requests);
      if prev.tables.Some? {
        var request := PairRequest(minutes, tickers[pairs[n].0], tickers[pairs[n].1]);
        AppendSent(tickers, minutes, pairs, prev.requests, request);
        if !Throws(respond(n), tickers[pairs[n].0], tickers[pairs[n].1]) {
          UsableExtend(tickers, respond, pairs, n);
        }
      }
    }
  }

  /** What holds of the pairs without the last one holds of all of them. */
  lemma {:induction false} FrontAgrees(tickers: seq<string>, minutes: int, respond: nat -> PairResponse,
                                      pairs: seq<(nat, nat)>, requests: seq<PairRequest>)
    requires InRange(pairs, |tickers|) && pairs != []
    ensures InRange(pairs[..|pairs| - 1], |tickers|)
    ensures SentInOrder(tickers, minutes, pairs[..|pairs| - 1], requests) ==> SentInOrder(tickers, minutes, pairs, requests)
    ensures forall m :: 0 <= m < |pairs| ==>
      (AnswersUsable(tickers, respond, pairs[..|pairs| - 1], m) <==> AnswersUsable(tickers, respond, pairs, m))
  {
  }

  lemma {:induction false} AppendSent(tickers: seq<string>, minutes: int, pairs: seq<(nat, nat)>,
                                     requests: seq<PairRequest>, request: PairRequest)
    requires InRange(pairs, |tickers|) && pairs != [] && |requests| == |pairs| - 1
    requires SentInOrder(tickers, minutes, pairs, requests)
    requires request == PairRequest(minutes, tickers[pairs[|pairs| - 1].0], tickers[pairs[|pairs| - 1].1])
    ensures SentInOrder(tickers, minutes, pairs, requests + [request])
  {
  }

  lemma {:induction false} UsableExtend(tickers: seq<string>, respond: nat -> PairResponse, pairs: seq<(nat, nat)>, n: nat)
    requires InRange(pairs, |tickers|) && n < |pairs| && AnswersUsable(tickers, respond, pairs, n)
    requires !Throws(respond(n), tickers[pairs[n].0], tickers[pairs[n].1])
    ensures AnswersUsable(tickers, respond, pairs, n + 1)
  {
  }

  /** `matrix[a][b]` and `matrix[b][a]` are both present or both absent, and equal. */
  predicate Symmetric(m: Matrix)
  {
    forall a, b :: a in m && b in m[a] ==> b in m && a in m[b] && m[b][a] == m[a][b]
  }

  /** Recording a pair sets both of its directions to `c` and leaves every other entry as it was. */
  lemma {:induction false} RecordAt(t: Tables, t1: string, t2: string, c: Option<real>, stocks: map<string, StockSummary>, a: string, b: string)
    requires t1 in stocks && t2 in stocks
    ensures var m, m' := t.matrix, Record(t, t1, t2, c, stocks).matrix;
      (a in m' <==> a in m || a == t1 || a == t2) &&
      (a in m' && b in m'[a] <==> (a in m && b in m[a]) || (a, b) == (t1, t2) || (a, b) == (t2, t1)) &&
      (a in m' && b in m'[a] ==>
        m'[a][b] == if (a, b) == (t1, t2) || (a, b) == (t2, t1) then c else m[a][b])
  {
  }

  lemma {:induction false} RecordKeepsSymmetric(t: Tables, t1: string, t2: string, c: Option<real>, stocks: map<string, StockSummary>)
    requires t1 in stocks && t2 in stocks && Symmetric(t.matrix)
    ensures Symmetric(Record(t, t1, t2, c, stocks).matrix)
  {
    var m' := Record(t, t1, t2, c, stocks).matrix;
    forall a, b | a in m' && b in m'[a]
      ensures b in m' && a in m'[b] && m'[b][a] == m'[a][b]
    {
      RecordAt(t, t1, t2, c, stocks, a, b);
      RecordAt(t, t1, t2, c, stocks, b, a);
    }
  }

  /** Whatever the answers, every published matrix is symmetric. */
  lemma {:induction false} RunSymmetric(tickers: seq<string>, minutes: int, respond: nat -> PairResponse, pairs: seq<(nat, nat)>)
    requires InRange(pairs, |tickers|)
    ensures var p := Run(tickers, minutes, respond, pairs);
      p.tables.Some? ==> Symmetric(p.tables.value.matrix)
  {
    if pairs != [] {
      var n := |pairs| - 1;
      var prev := Run(tickers, minutes, respond, pairs[..n]);
      RunSymmetric(tickers, minutes, respond, pairs[..n]);
      var response := respond(|prev.requests|);
      var t1, t2 := tickers[pairs[n].0], tickers[pairs[n].1];
      if prev.tables.Some? && response.PairOk? && t1 in response.stocks && t2 in response.stocks {
        RecordKeepsSymmetric(prev.tables.value, t1, t2, response.correlation, response.stocks);
      }
    }
  }

  /** No two positions of `tickers` hold the same ticker (the keys of a JavaScript object). */
  predicate Distinct(tickers: seq<string>)
  {
    forall x, y :: 0 <= x < |tickers| && 0 <= y < |tickers| && x != y ==> tickers[x] != tickers[y]
  }

  /** With distinct tickers the matrix has no diagonal entries: the diagonal is drawn, not fetched. */
  lemma {:induction false} RunNoDiagonal(tickers: seq<string>, minutes: int, respond: nat -> PairResponse, pairs: seq<(nat, nat)>)
    requires Distinct(tickers) && WellFormed(pairs, |tickers|)
    ensures InRange(pairs, |tickers|)
    ensures var p := Run(tickers, minutes, respond, pairs);
      p.tables.Some? ==> forall a :: a in p.tables.value.matrix ==> a !in p.tables.value.matrix[a]
  {
    if pairs != [] {
      var n := |pairs| - 1;
      assert WellFormed(pairs[..n], |tickers|);
      RunNoDiagonal(tickers, minutes, respond, pairs[..n]);
      var prev := Run(tickers, minutes, respond, pairs[..n]);
      var response := respond(|prev.requests|);
      var t1, t2 := tickers[pairs[n].0], tickers[pairs[n].1];
      assert t1 != t2;
      if prev.tables.Some? && response.PairOk? && t1 in response.stocks && t2 in response.stocks {
        var m' := Record(prev.tables.value, t1, t2, response.correlation, response.stocks).matrix;
        forall a | a in m'
          ensures a !in m'[a]
        {
          RecordAt(prev.tables.value, t1, t2, response.correlation, response.stocks, a, a);
        }
      }
    }
  }

  /** While nothing has thrown, one request has been sent per pair. */
  lemma {:induction false} RunCount(tickers: seq<string>, minutes: int, respond: nat -> PairResponse, pairs: seq<(nat, nat)>)
    requires InRange(pairs, |tickers|)
    ensures var p := Run(tickers, minutes, respond, pairs);
      p.tables.Some? ==> |p.requests| == |pairs|
  {
    RunRequests(tickers, minutes, respond, pairs);
  }

  lemma {:induction false} WellFormedFront(pairs: seq<(nat, nat)>, k: nat)
    requires WellFormed(pairs, k) && pairs != []
    ensures WellFormed(pairs[..|pairs| - 1], k) && InRange(pairs, k)
    ensures forall t :: 0 <= t < |pairs| - 1 ==> Before(pairs[t], pairs[|pairs| - 1])
  {
  }

  /** The last iteration of `Run`, spelled out. */
  lemma {:induction false} RunLast(tickers: seq<string>, minutes: int, respond: nat -> PairResponse, pairs: seq<(nat, nat)>)
    requires InRange(pairs, |tickers|) && pairs != []
    ensures InRange(pairs[..|pairs| - 1], |tickers|)
    ensures var n := |pairs| - 1;
      var prev := Run(tickers, minutes, respond, pairs[..n]);
      var t1, t2 := tickers[pairs[n].0], tickers[pairs[n].1];
      var response := respond(|prev.requests|);
      Run(tickers, minutes, respond, pairs) ==
        if prev.tables.Some? && response.PairOk? && t1 in response.stocks && t2 in response.stocks
        then Progress(Some(Record(prev.tables.value, t1, t2, response.correlation, response.stocks)),
                      prev.requests + [PairRequest(minutes, t1, t2)])
        else if prev.tables.Some? then Progress(None, prev.requests + [PairRequest(minutes, t1, t2)])
        else prev
  {
  }

  /** Both directions of `pair`'s entry hold the correlation of answer `t`. */
  predicate EntryAt(tickers: seq<string>, respond: nat -> PairResponse, pair: (nat, nat), t: nat, m: Matrix)
    requires pair.0 < |tickers| && pair.1 < |tickers|
  {
    var a, b := tickers[pair.0], tickers[pair.1];
    respond(t).PairOk? &&
    a in m && b in m[a] && m[a][b] == respond(t).correlation &&
    b in m && a in m[b] && m[b][a] == respond(t).correlation
  }

  predicate EntriesAgree(tickers: seq<string>, respond: nat -> PairResponse, pairs: seq<(nat, nat)>, m: Matrix)
    requires InRange(pairs, |tickers|)
  {
    forall t :: 0 <= t < |pairs| ==> EntryAt(tickers, respond, pairs[t], t, m)
  }

  lemma {:induction false} EntryKept(tickers: seq<string>, respond: nat -> PairResponse, pair: (nat, nat), t: nat,
                  tables: Tables, t1: string, t2: string, c: Option<real>, stocks: map<string, StockSummary>)
    requires pair.0 < |tickers| && pair.1 < |tickers| && t1 in stocks && t2 in stocks
    requires EntryAt(tickers, respond, pair, t, tables.matrix)
    requires var a, b := tickers[pair.0], tickers[pair.1]; (a, b) != (t1, t2) && (a, b) != (t2, t1)
    ensures EntryAt(tickers, respond, pair, t, Record(tables, t1, t2, c, stocks).matrix)
  {
    var a, b := tickers[pair.0], tickers[pair.1];
    RecordAt(tables, t1, t2, c, stocks, a, b);
    RecordAt(tables, t1, t2, c, stocks, b, a);
  }

  lemma {:induction false} EntryNew(tickers: seq<string>, respond: nat -> PairResponse, pair: (nat, nat), t: nat,
                 tables: Tables, stocks: map<string, StockSummary>)
    requires pair.0 < |tickers| && pair.1 < |tickers| && respond(t).PairOk?
    requires var a, b := tickers[pair.0], tickers[pair.1]; a in stocks && b in stocks
    ensures EntryAt(tickers, respond, pair, t,
      Record(tables, tickers[pair.0], tickers[pair.1], respond(t).correlation, stocks).matrix)
  {
    var a, b := tickers[pair.0], tickers[pair.1];
    RecordAt(tables, a, b, respond(t).correlation, stocks, a, b);
    RecordAt(tables, a, b, respond(t).correlation, stocks, b, a);
  }

  /** Recording the last pair sets its own entry and keeps every earlier pair's. */
  lemma {:induction false} EntryAfterRecord(tickers: seq<string>, respond: nat -> PairResponse, pairs: seq<(nat, nat)>, t: nat,
                                           tables: Tables, stocks: map<string, StockSummary>)
    requires Distinct(tickers) && WellFormed(pairs, |tickers|) && t < |pairs|
    requires var n := |pairs| - 1;
      respond(n).PairOk? && tickers[pairs[n].0] in stocks && tickers[pairs[n].1] in stocks
    requires t < |pairs| - 1 ==> EntryAt(tickers, respond, pairs[t], t, tables.matrix)
    ensures var n := |pairs| - 1;
      EntryAt(tickers, respond, pairs[t], t,
        Record(tables, tickers[pairs[n].0], tickers[pairs[n].1], respond(n).correlation, stocks).matrix)
  {
    var n := |pairs| - 1;
    WellFormedFront(pairs, |tickers|);
    if t < n {
      var x, y := pairs[t], pairs[n];
      assert Before(x, y);
      assert x.0 != y.0 || x.1 != y.1;
      assert x.0 != y.1;
      EntryKept(tickers, respond, x, t, tables, tickers[y.0], tickers[y.1], respond(n).correlation, stocks);
    } else {
      EntryNew(tickers, respond, pairs[t], t, tables, stocks);
    }
  }

  /**
   * With distinct tickers each unordered pair is fetched once, so the
   * published matrix holds, in both directions, the correlation answered
   * for that pair's request.
   */
  lemma {:induction false} RunEntries(tickers: seq<string>, minutes: int, respond: nat -> PairResponse, pairs: seq<(nat, nat)>)
    requires Distinct(tickers) && WellFormed(pairs, |tickers|)
    ensures InRange(pairs, |tickers|)
    ensures var p := Run(tickers, minutes, respond, pairs);
      p.tables.Some? ==> EntriesAgree(tickers, respond, pairs, p.tables.value.matrix)
  {
    if pairs != [] {
      var n := |pairs| - 1;
      var front := pairs[..n];
      WellFormedFront(pairs, |tickers|);
      RunLast(tickers, minutes, respond, pairs);
      RunEntries(tickers, minutes, respond, front);
      RunCount(tickers, minutes, respond, front);
      var prev := Run(tickers, minutes, respond, front);
      var response := respond(|prev.requests|);
      var t1, t2 := tickers[pairs[n].0], tickers[pairs[n].1];
      if prev.tables.Some? && response.PairOk? && t1 in response.stocks && t2 in response.stocks {
        var tables := prev.tables.value;
        var m' := Record(tables, t1, t2, response.correlation, response.stocks).matrix;
        forall t | 0 <= t < |pairs|
          ensures EntryAt(tickers, respond, pairs[t], t, m')
        {
          if t < n {
            assert front[t] == pairs[t];
          }
          EntryAfterRecord(tickers, respond, pairs, t, tables, response.stocks);
        }
      }
    }
  }

  /** `pair` involves ticker position `m`. */
  predicate Mentions(pair: (nat, nat), m: nat)
  {
    pair.0 == m || pair.1 == m
  }

  /** The position of the last pair involving `m`, or -1 when there is none. */
  function LastWith(pairs: seq<(nat, nat)>, m: nat): (r: int)
    ensures -1 <= r < |pairs|
    ensures r >= 0 ==> Mentions(pairs[r], m)
    ensures forall q :: r < q < |pairs| ==> !Mentions(pairs[q], m)
  {
    if pairs == [] then -1
    else if Mentions(pairs[|pairs| - 1], m) then |pairs| - 1
    else LastWith(pairs[..|pairs| - 1], m)
  }

  /**
   * `details[ticker]` is the summary from the last report that involved
   * the ticker: every later pair overwrites it. Tickers in no pair have no
   * details.
   */
  lemma {:induction false} RunDetails(tickers: seq<string>, minutes: int, respond: nat -> PairResponse, pairs: seq<(nat, nat)>)
    requires Distinct(tickers) && WellFormed(pairs, |tickers|)
    ensures InRange(pairs, |tickers|)
    ensures var p := Run(tickers, minutes, respond, pairs);
      p.tables.Some? ==> forall m :: 0 <= m < |tickers| ==> DetailAt(tickers, respond, pairs, m, p.tables.value.details)
  {
    if pairs != [] {
      var n := |pairs| - 1;
      var front := pairs[..n];
      WellFormedFront(pairs, |tickers|);
      RunLast(tickers, minutes, respond, pairs);
      RunDetails(tickers, minutes, respond, front);
      RunCount(tickers, minutes, respond, front);
      var prev := Run(tickers, minutes, respond, front);
      var response := respond(|prev.requests|);
      var t1, t2 := tickers[pairs[n].0], tickers[pairs[n].1];
      if prev.tables.Some? && response.PairOk? && t1 in response.stocks && t2 in response.stocks {
        var d' := Record(prev.tables.value, t1, t2, response.correlation, response.stocks).details;
        forall m | 0 <= m < |tickers|
          ensures DetailAt(tickers, respond, pairs, m, d')
        {
          DetailAfterRecord(tickers, respond, pairs, m, prev.tables.value, response.stocks);
        }
      }
    }
  }

  /**
   * Ticker `m` has details exactly when some pair involves it, and then they
   * are the ones reported by the answer to the last such pair.
   */
  predicate DetailAt(tickers: seq<string>, respond: nat -> PairResponse, pairs: seq<(nat, nat)>, m: nat,
                     d: map<string, StockSummary>)
    requires m < |tickers|
  {
    var last := LastWith(pairs, m);
    (tickers[m] in d <==> last >= 0) &&
    (last >= 0 ==>
      respond(last).PairOk? && tickers[m] in respond(last).stocks &&
      d[tickers[m]] == respond(last).stocks[tickers[m]])
  }

  /** Recording the last pair overwrites the details of its two tickers and keeps everyone else's. */
  lemma {:induction false} DetailAfterRecord(tickers: seq<string>, respond: nat -> PairResponse, pairs: seq<(nat, nat)>, m: nat,
                                            tables: Tables, stocks: map<string, StockSummary>)
    requires Distinct(tickers) && WellFormed(pairs, |tickers|) && pairs != [] && m < |tickers|
    requires var n := |pairs| - 1;
      respond(n).PairOk? && respond(n).stocks == stocks &&
      tickers[pairs[n].0] in stocks && tickers[pairs[n].1] in stocks
    requires DetailAt(tickers, respond, pairs[..|pairs| - 1], m, tables.details)
    ensures var n := |pairs| - 1;
      DetailAt(tickers, respond, pairs, m,
        Record(tables, tickers[pairs[n].0], tickers[pairs[n].1], respond(n).correlation, stocks).details)
  {
    var n := |pairs| - 1;
    var front := pairs[..n];
    if !Mentions(pairs[n], m) {
      assert LastWith(pairs, m) == LastWith(front, m);
      assert tickers[m] != tickers[pairs[n].0] && tickers[m] != tickers[pairs[n].1];
    } else {
      assert LastWith(pairs, m) == n;
    }
  }

  lemma {:induction false} LastWithUnique(pairs: seq<(nat, nat)>, m: nat, p: nat)
    requires p < |pairs| && Mentions(pairs[p], m)
    requires forall q :: p < q < |pairs| ==> !Mentions(pairs[q], m)
    ensures LastWith(pairs, m) == p
  {
  }

  /** The last request involving ticker `x`: `(x, k - 1)`, or `(k - 2, k - 1)` for the last ticker. */
  function LastPairOf(x: nat, k: nat): nat
    requires x < k && k >= 2
  {
    if x < k - 1 then PairIndex(x, k - 1, k) else PairIndex(k - 2, k - 1, k)
  }

  lemma {:induction false} LastOfAllPairs(x: nat, k: nat)
    requires x < k && k >= 2
    ensures LastWith(AllPairs(k), x) == LastPairOf(x, k)
  {
    var all := AllPairs(k);
    AllPairsWellFormed(k);
    var a, b := if x < k - 1 then x else k - 2, k - 1;
    PairPosition(a, b, k);
    var p := PairIndex(a, b, k);
    forall q | p < q < |all|
      ensures !Mentions(all[q], x)
    {
      assert Before(all[p], all[q]);
    }
    LastWithUnique(all, x, p);
  }

  /**
   * What a completed fetch over distinct tickers puts on screen: all
   * `k (k - 1) / 2` requests were sent, each off-diagonal cell, read either
   * way, shows the correlation answered for its pair, and each ticker's
   * details come from its last pair.
   */
  lemma {:induction false} FetchedHeatmap(tickers: seq<string>, minutes: int, respond: nat -> PairResponse)
    requires Distinct(tickers)
    ensures InRange(AllPairs(|tickers|), |tickers|)
    ensures var k, p := |tickers|, Run(tickers, minutes, respond, AllPairs(|tickers|));
      p.tables.Some? ==>
        |p.requests| * 2 == k * (k - 1) &&
        (forall a, b :: 0 <= a < b < k ==>
          respond(PairIndex(a, b, k)).PairOk? &&
          CellValue(p.tables.value.matrix, tickers[a], tickers[b]) == respond(PairIndex(a, b, k)).correlation &&
          CellValue(p.tables.value.matrix, tickers[b], tickers[a]) == respond(PairIndex(a, b, k)).correlation) &&
        (k >= 2 ==> forall x :: 0 <= x < k ==>
          respond(LastPairOf(x, k)).PairOk? && tickers[x] in respond(LastPairOf(x, k)).stocks &&
          tickers[x] in p.tables.value.details &&
          p.tables.value.details[tickers[x]] == respond(LastPairOf(x, k)).stocks[tickers[x]])
  {
    var k := |tickers|;
    var all := AllPairs(k);
    AllPairsWellFormed(k);
    AllPairsCount(k);
    RunCount(tickers, minutes, respond, all);
    RunEntries(tickers, minutes, respond, all);
    RunDetails(tickers, minutes, respond, all);
    var p := Run(tickers, minutes, respond, all);
    if p.tables.Some? {
      var m := p.tables.value.matrix;
      forall a, b | 0 <= a < b < k
        ensures respond(PairIndex(a, b, k)).PairOk? &&
          CellValue(m, tickers[a], tickers[b]) == respond(PairIndex(a, b, k)).correlation &&
          CellValue(m, tickers[b], tickers[a]) == respond(PairIndex(a, b, k)).correlation
      {
        PairPosition(a, b, k);
        assert EntryAt(tickers, respond, all[PairIndex(a, b, k)], PairIndex(a, b, k), m);
      }
      if k >= 2 {
        var d := p.tables.value.details;
        forall x | 0 <= x < k
          ensures respond(LastPairOf(x, k)).PairOk? && tickers[x] in respond(LastPairOf(x, k)).stocks &&
            tickers[x] in d && d[tickers[x]] == respond(LastPairOf(x, k)).stocks[tickers[x]]
        {
          LastOfAllPairs(x, k);
          assert DetailAt(tickers, respond, all, x, d);
        }
      }
    }
  }

  // ---- The page's configuration ----

  /** `Object.keys(AVAILABLE_STOCKS)`, in declaration order. */
  const AvailableStocks: seq<string> := ["AMD", "GOOGL", "GOOG"]

  /** The windows the selector offers, and the one selected at first. */
  const TimeIntervals: seq<int> := [10, 30, 50, 70, 90]
  const InitialMinutes: int := 50

  /**
   * The three configured stocks are distinct, and the page asks for AMD with
   * GOOGL, AMD with GOOG and GOOGL with GOOG, in that order, stopping early
   * only on an answer that throws.
   */
  lemma {:induction false} AvailableStocksRequests(minutes: int, respond: nat -> PairResponse)
    ensures Distinct(AvailableStocks)
    ensures AllPairs(|AvailableStocks|) == [(0, 1), (0, 2), (1, 2)]
    ensures var p := Run(AvailableStocks, minutes, respond, [(0, 1), (0, 2), (1, 2)]);
      var expected := [PairRequest(minutes, "AMD", "GOOGL"), PairRequest(minutes, "AMD", "GOOG"),
                       PairRequest(minutes, "GOOGL", "GOOG")];
      p.requests <= expected && (p.tables.Some? ==> p.requests == expected)
  {
    StocksDistinct();
    PairsOfThree();
    var expected := [PairRequest(minutes, "AMD", "GOOGL"), PairRequest(minutes, "AMD", "GOOG"),
                     PairRequest(minutes, "GOOGL", "GOOG")];
    ThreeRequests(AvailableStocks, minutes, respond, [(0, 1), (0, 2), (1, 2)], expected);
  }

  /** The requests for the three configured stocks, argued on a general sequence of pairs. */
  lemma {:induction false} ThreeRequests(tickers: seq<string>, minutes: int, respond: nat -> PairResponse,
                                        pairs: seq<(nat, nat)>, expected: seq<PairRequest>)
    requires InRange(pairs, |tickers|) && |expected| == |pairs|
    requires forall t :: 0 <= t < |pairs| ==> expected[t] == PairRequest(minutes, tickers[pairs[t].0], tickers[pairs[t].1])
    ensures var p := Run(tickers, minutes, respond, pairs);
      p.requests <= expected && (p.tables.Some? ==> p.requests == expected)
  {
    RunRequests(tickers, minutes, respond, pairs);
    var p := Run(tickers, minutes, respond, pairs);
    assert p.requests == expected[..|p.requests|];
  }

  lemma {:induction false} StocksDistinct()
    ensures Distinct(AvailableStocks)
  {
    assert |AvailableStocks[0]| == 3 && |AvailableStocks[1]| == 5 && |AvailableStocks[2]| == 4;
  }

  lemma {:induction false} PairsOfThree()
    ensures AllPairs(3) == [(0, 1), (0, 2), (1, 2)]
  {
    assert Row(0, 3) == [(0, 1), (0, 2)];
    assert Row(1, 3) == [(1, 2)];
    assert Row(2, 3) == [];
    assert RowsBefore(3, 3) == [(0, 1), (0, 2), (1, 2)];
  }

  /**
   * The server reads a pair request as sent: every window the selector
   * offers is positive, so `parseInt(minutes) || 50` returns it unchanged,
   * and the two `ticker` parameters arrive as an array of two in order.
   */
  lemma {:induction false} ServerReadsPairRequest(r: PairRequest)
    requires r.minutes in TimeIntervals
    ensures Minutes(Single(Decimal(r.minutes))) == r.minutes
    ensures TickerPair(Many([r.ticker1, r.ticker2])) == Some((r.ticker1, r.ticker2))
  {
    MinutesPassThrough(r.minutes);
  }

  // ---- The server's answer as the page sees it ----

  /**
   * What axios hands the loop for a response of `GET /stockcorrelation`,
   * whose correlation serialised to `v`: a report is data; a 400 or 500
   * throws; a body without `stocks` makes the details lookup throw.
   */
  function ClientView(r: Response, v: Option<real>): PairResponse
  {
    match r
    case CorrelationReport(_, stocks) => PairOk(v, stocks)
    case AveragePrice(_, _) => PairOk(None, map[])
    case _ => PairFailed
  }

  /**
   * A pair request that reaches the correlation route is usable by the page
   * exactly when both upstream fetches delivered; then the cell shows a
   * coefficient in [-1, 1], or `N/A` when the correlation is undefined.
   */
  lemma {:induction false} ServerAnswerAsSeen(s: CacheState, r: PairRequest, u0: Upstream, u1: Upstream, v: Option<real>)
    requires r.minutes in TimeIntervals
    requires var o := CorrelationRouteStep(s, Many([r.ticker1, r.ticker2]), Single(Decimal(r.minutes)), u0, u1);
      o.response.CorrelationReport? ==> SerializesTo(o.response.correlation, v)
    ensures var o := CorrelationRouteStep(s, Many([r.ticker1, r.ticker2]), Single(Decimal(r.minutes)), u0, u1);
      var a := FetchStep(s, r.ticker1, r.minutes, u0);
      (!Throws(ClientView(o.response, v), r.ticker1, r.ticker2) <==>
        a.result.Ok? && FetchStep(a.state, r.ticker2, r.minutes, u1).result.Ok?) &&
      (!Throws(ClientView(o.response, v), r.ticker1, r.ticker2) ==>
        v == None || -1.0 <= v.value <= 1.0)
  {
    ServerReadsPairRequest(r);
    var minutesQuery := Single(Decimal(r.minutes));
    var a := FetchStep(s, r.ticker1, r.minutes, u0);
    if a.result.Ok? && FetchStep(a.state, r.ticker2, r.minutes, u1).result.Ok? {
      CorrelationReportContents(s, r.ticker1, r.ticker2, minutesQuery, u0, u1);
      var b := FetchStep(a.state, r.ticker2, r.minutes, u1);
      ServedCoefficientInRange(a.result.value, b.result.value, v);
    }
  }
}
