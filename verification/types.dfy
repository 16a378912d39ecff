/** The value types shared by every component (src/common/types.h). Prices,
    quantities and rates are exact reals; instants are nanosecond counts. */
module Types {
  datatype Option<+T> = None | Some(value: T)

  datatype Exchange = BINANCE | OKX | BYBIT | MEXC | GATEIO

  datatype Side = Buy | Sell

  datatype OrderStatus = Pending | Open | PartiallyFilled | Filled | Cancelled | Rejected

  datatype PriceLevel = PriceLevel(price: real, quantity: real)

  datatype OrderBookSnapshot = OrderBookSnapshot(
    exchange: Exchange, pair: string, bids: seq<PriceLevel>, asks: seq<PriceLevel>,
    sequenceId: nat, localTimestamp: int)

  datatype HistoricalSnapshot = HistoricalSnapshot(
    timestampMs: nat, exchange: Exchange, pair: string, bids: seq<PriceLevel>, asks: seq<PriceLevel>)

  datatype ArbitrageOpportunity = ArbitrageOpportunity(
    pair: string, buyExchange: Exchange, sellExchange: Exchange, buyPrice: real, sellPrice: real,
    quantity: real, grossSpreadBps: real, netSpreadBps: real)

  datatype OrderRequest = OrderRequest(
    exchange: Exchange, pair: string, side: Side, price: real, quantity: real)

  /** Order ids and error texts are not modelled; a default result is pending and empty. */
  datatype OrderResult = OrderResult(
    status: OrderStatus, filledQuantity: real, avgFillPrice: real, feePaid: real)

  const PENDING_RESULT := OrderResult(Pending, 0.0, 0.0, 0.0)
  const REJECTED_RESULT := OrderResult(Rejected, 0.0, 0.0, 0.0)

  /** The buyPrice and sellPrice of a record are the advertised ones; what was
      paid and received is in the two results. */
  datatype TradeRecord = TradeRecord(
    pair: string, buyExchange: Exchange, sellExchange: Exchange, buyPrice: real, sellPrice: real,
    quantity: real, grossSpreadBps: real, netSpreadBps: real,
    buyResult: OrderResult, sellResult: OrderResult, realizedPnl: real)

  function Min(a: real, b: real): real {
    if b < a then b else a
  }

  function MinNat(a: nat, b: nat): nat {
    if b < a then b else a
  }

  ghost predicate Distinct<T>(items: seq<T>) {
    forall i, j :: 0 <= i < j < |items| ==> items[i] != items[j]
  }
}
