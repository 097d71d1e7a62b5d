/** Values shared by the stock-price backend and its dashboard client. */
module Types {

  /** JavaScript's `null`/`undefined` against a present value. */
  datatype Option<+T> = None | Some(value: T)

  /** A value or the error a JavaScript `throw` would carry. */
  datatype Result<+T, +E> = Ok(value: T) | Err(error: E)

  /** One sample of the upstream price history (`{price, lastUpdatedAt}`). */
  datatype PricePoint = PricePoint(price: real, lastUpdatedAt: string)

  /** The per-ticker part of a correlation response (`{averagePrice, priceHistory}`). */
  datatype StockSummary = StockSummary(averagePrice: real, priceHistory: seq<PricePoint>)

  /** Why a call to the upstream evaluation service did not deliver. */
  datatype Failure =
    | AuthenticationFailed          // 'Error obtaining authentication token'
    | HttpStatus(status: int)       // axios error carrying a response status
    | NoResponse                    // axios error without a response (timeout, network)
    | UndefinedName(name: string)   // a ReferenceError raised by the JavaScript engine
}
