/** Taker fees: cached per pair and exchange, with defaults (src/strategy/fee_manager.cpp). */
module Fees {
  import opened Types

  type FeeCache = map<(string, Exchange), real>

  function DefaultTakerFee(e: Exchange): real {
    match e
    case BINANCE => 0.001
    case OKX => 0.001
    case BYBIT => 0.001
    case MEXC => 0.0005
    case GATEIO => 0.00075
  }

  function TakerFee(cache: FeeCache, e: Exchange, pair: string): real {
    if (pair, e) in cache then cache[(pair, e)] else DefaultTakerFee(e)
  }

  function TotalFeeRate(cache: FeeCache, buy: Exchange, sell: Exchange, pair: string): real {
    TakerFee(cache, buy, pair) + TakerFee(cache, sell, pair)
  }

  /** Only the two entries of the pair matter, and a missing one has its default. */
  lemma CachedFeesDecide(cache: FeeCache, buy: Exchange, sell: Exchange, pair: string, buyFee: real, sellFee: real,
                         other: (string, Exchange))
    requires buy != sell
    ensures TotalFeeRate(cache[(pair, buy) := buyFee][(pair, sell) := sellFee], buy, sell, pair) == buyFee + sellFee
    ensures (pair, buy) !in cache ==>
      TotalFeeRate(cache[(pair, sell) := sellFee], buy, sell, pair)
        == sellFee + if buy == MEXC then 0.0005 else if buy == GATEIO then 0.00075 else 0.001
    ensures TotalFeeRate(cache, buy, sell, pair) == TotalFeeRate(cache, sell, buy, pair)
    ensures other != (pair, buy) && other != (pair, sell) ==>
      TotalFeeRate(cache[other := buyFee], buy, sell, pair) == TotalFeeRate(cache, buy, sell, pair)
  {
  }
}
