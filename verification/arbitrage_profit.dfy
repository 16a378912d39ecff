/** From detection to the ledger: what an emitted opportunity earns when it is
    executed on the books it was found on. */
module ArbitrageProfit {
  import opened Types
  import opened RealFacts
  import opened DepthWalk
  import opened DepthAnalyzer
  import opened Fees
  import opened Assets
  import opened Ledgers
  import opened Candidates
  import opened EmittedSizes
  import opened PaperExecutors
  import opened PaperSafety

  /** The part of the notional that is earned, from the net spread as a
      fraction and the two taker fees. The sell fee is charged on proceeds that
      exceed the buy cost, which the net spread does not account for. */
  function Margin(net: real, buyFee: real, sellFee: real): real {
    net * (1.0 - sellFee) - sellFee * (buyFee + sellFee)
  }

  lemma MarginOfFlows(w: real, k: real, net: real, buyFee: real, sellFee: real)
    requires k == net + buyFee + sellFee
    ensures w * k - w * buyFee - (w + w * k) * sellFee == w * Margin(net, buyFee, sellFee)
  {
    assert Margin(net, buyFee, sellFee) == k - buyFee - sellFee - k * sellFee by {
      Distribute(sellFee, net, buyFee + sellFee);
    }
    Distribute(sellFee, w, w * k);
    Associate(w, k, sellFee);
    Distribute(w, k - buyFee, -sellFee - k * sellFee);
    Distribute(w, k, -buyFee);
    Distribute(w, -sellFee, -(k * sellFee));
  }

  lemma SellPriceFromSpread(buy: real, sell: real, netBps: real, feeRate: real) returns (k: real)
    requires buy > 0.0 && netBps == SpreadBps(buy, sell) - feeRate * 10000.0
    ensures k == netBps / 10000.0 + feeRate && sell == buy + buy * k
  {
    k := (sell - buy) / buy;
    QuotientTimes(sell - buy, buy);
  }

  ghost predicate Unchanged(buy: OrderBookSnapshot, sell: OrderBookSnapshot, pair: string, fees: FeeCache,
                            inputs: Inputs)
  {
    && inputs.books(buy.exchange, pair) == Some(buy) && inputs.books(sell.exchange, pair) == Some(sell)
    && inputs.fees == fees
  }

  /** Both legs fill in full at the advertised prices. */
  lemma EmittedFillsAsAdvertised(pair: string, buy: OrderBookSnapshot, sell: OrderBookSnapshot, settings: Settings,
                                 fees: FeeCache, now: int, b: Balances, inputs: Inputs)
    requires GoodAsks(buy.asks) && GoodBids(sell.bids)
    requires Candidate(pair, buy, sell, settings, fees, now).Some?
    requires Unchanged(buy, sell, pair, fees, inputs)
    requires Accepts(b, Candidate(pair, buy, sell, settings, fees, now).value, inputs)
    ensures var o := Candidate(pair, buy, sell, settings, fees, now).value;
      var r := Executed(b, o, inputs);
      && r.buyResult == OrderResult(Filled, o.quantity, o.buyPrice,
                                    o.quantity * o.buyPrice * TakerFee(fees, buy.exchange, pair))
      && r.sellResult == OrderResult(Filled, o.quantity, o.sellPrice,
                                     o.quantity * o.sellPrice * TakerFee(fees, sell.exchange, pair))
      && r.realizedPnl == Pnl(r.buyResult, r.sellResult)
  {
    hide Candidate, Effective, MaxArb, TakerFee, Pnl, SpreadBps;
    EmittedIsSound(pair, buy, sell, settings, fees, now);
  }

  /** The realised profit is exactly quantity * buy price * margin, so the trade
      earns money exactly when the margin is positive; a positive net spread
      alone is not enough. */
  lemma EmittedProfit(pair: string, buy: OrderBookSnapshot, sell: OrderBookSnapshot, settings: Settings,
                      fees: FeeCache, now: int, b: Balances, inputs: Inputs)
    requires GoodAsks(buy.asks) && GoodBids(sell.bids)
    requires Candidate(pair, buy, sell, settings, fees, now).Some?
    requires Unchanged(buy, sell, pair, fees, inputs)
    requires Accepts(b, Candidate(pair, buy, sell, settings, fees, now).value, inputs)
    ensures var o := Candidate(pair, buy, sell, settings, fees, now).value;
      var margin := Margin(o.netSpreadBps / 10000.0, TakerFee(fees, buy.exchange, pair),
                           TakerFee(fees, sell.exchange, pair));
      && Executed(b, o, inputs).realizedPnl == o.quantity * o.buyPrice * margin
      && (Executed(b, o, inputs).realizedPnl > 0.0 <==> margin > 0.0)
  {
    hide Candidate, Effective, MaxArb, TakerFee, SpreadBps, Margin, Executed, Accepts;
    var o := Candidate(pair, buy, sell, settings, fees, now).value;
    EmittedIsSound(pair, buy, sell, settings, fees, now);
    EmittedFillsAsAdvertised(pair, buy, sell, settings, fees, now, b, inputs);
    var bf, sf := TakerFee(fees, buy.exchange, pair), TakerFee(fees, sell.exchange, pair);
    PnlOfFullFills(o.quantity, o.buyPrice, o.sellPrice, o.netSpreadBps, bf, sf);
  }

  /** A net spread of a hundredth of a basis point is emitted, accepted, and loses money. */
  lemma PositiveSpreadCanLose(pair: string, now: int)
    returns (buy: OrderBookSnapshot, sell: OrderBookSnapshot, settings: Settings, b: Balances, inputs: Inputs)
    ensures GoodAsks(buy.asks) && GoodBids(sell.bids)
    ensures Candidate(pair, buy, sell, settings, map[], now).Some? && Unchanged(buy, sell, pair, map[], inputs)
    ensures var o := Candidate(pair, buy, sell, settings, map[], now).value;
      Accepts(b, o, inputs) && o.netSpreadBps > 0.0 && Executed(b, o, inputs).realizedPnl < 0.0
  {
    hide Candidate, Effective, MaxArb, SpreadBps, Margin, Executed, Accepts, LeastBalances;
    settings := Settings(0.0, 0.0, 1000.0);
    buy := OrderBookSnapshot(BINANCE, pair, [], [PriceLevel(100.0, 1.0)], 0, now);
    sell := OrderBookSnapshot(OKX, pair, [PriceLevel(100.2001, 1.0)], [], 0, now);
    NarrowSpread();
    NarrowIsEmitted(pair, buy, sell, settings, now);
    var o := Candidate(pair, buy, sell, settings, map[], now).value;
    EmittedIsSound(pair, buy, sell, settings, map[], now);
    NarrowBooks(o.quantity);
    inputs := Inputs((e: Exchange, p: string) => if e == BINANCE then Some(buy) else Some(sell), map[], 0.5, 0.5);
    b := LeastBalances(o);
    LeastIsAccepted(o, inputs);
    EmittedProfit(pair, buy, sell, settings, map[], now, b, inputs);
    NarrowMargin();
    MulPositive(o.quantity, o.buyPrice);
    MulPositive(o.quantity * o.buyPrice, -Margin(0.000001, 0.001, 0.001));
  }

  lemma NarrowSpread()
    ensures SpreadBps(100.0, 100.2001) == 20.01
  {
  }

  lemma NarrowMargin()
    ensures Margin(0.000001, 0.001, 0.001) < 0.0
  {
  }

  lemma UnitPrice(side: Side, price: real, q: real)
    requires 0.0 < q <= 1.0
    ensures var r := Effective(side, [PriceLevel(price, 1.0)], q); r.fullyFillable && r.avgPrice == price
  {
    QuotientIs(q * price, q, price);
  }

  /** Exactly the parts of the one unit on each side are feasible, at the same two prices. */
  lemma NarrowBooks(q: real)
    ensures var asks, bids := [PriceLevel(100.0, 1.0)], [PriceLevel(100.2001, 1.0)];
      && (Feasible(asks, bids, 0.0, 0.002, q) <==> 0.0 < q <= 1.0)
      && (0.0 < q <= 1.0 ==> Effective(Buy, asks, q).avgPrice == 100.0 && Effective(Sell, bids, q).avgPrice == 100.2001)
  {
    var asks, bids := [PriceLevel(100.0, 1.0)], [PriceLevel(100.2001, 1.0)];
    NarrowSpread();
    assert Total(asks) == 1.0 && Total(bids) == 1.0;
    hide Effective, SpreadBps, Total;
    if 0.0 < q <= 1.0 {
      UnitPrice(Buy, 100.0, q);
      UnitPrice(Sell, 100.2001, q);
    } else if Feasible(asks, bids, 0.0, 0.002, q) {
      FeasibleBounds(asks, bids, 0.0, 0.002, q);
    }
  }

  lemma NarrowIsEmitted(pair: string, buy: OrderBookSnapshot, sell: OrderBookSnapshot, settings: Settings, now: int)
    requires settings == Settings(0.0, 0.0, 1000.0)
    requires buy == OrderBookSnapshot(BINANCE, pair, [], [PriceLevel(100.0, 1.0)], 0, now)
    requires sell == OrderBookSnapshot(OKX, pair, [PriceLevel(100.2001, 1.0)], [], 0, now)
    ensures GoodAsks(buy.asks) && GoodBids(sell.bids) && Candidate(pair, buy, sell, settings, map[], now).Some?
  {
    NarrowSpread();
    NarrowBooks(1.0);
    hide Candidate, Effective, MaxArb, SpreadBps, Feasible;
    MaxArbNearOptimal(buy.asks, sell.bids, 0.0, 0.002, 1.0);
    assert Total(buy.asks) == 1.0 && Total(sell.bids) == 1.0;
    Pow2Above(50);
    AtMostByCost(0.5, 1.0, Pow2(50));
    var q := MaxArb(buy.asks, sell.bids, 0.0, 0.002);
    MaxArbSound(buy.asks, sell.bids, 0.0, 0.002);
    NarrowBooks(q);
    hide Total;
    MulPositive(Effective(Buy, buy.asks, q).avgPrice, q);
    RechecksNeverReject(pair, buy, sell, settings, map[], now);
  }

  lemma PnlOfFullFills(q: real, buyPrice: real, sellPrice: real, netBps: real, bf: real, sf: real)
    requires q > 0.0 && buyPrice > 0.0 && netBps == SpreadBps(buyPrice, sellPrice) - (bf + sf) * 10000.0
    ensures var pnl := Pnl(OrderResult(Filled, q, buyPrice, q * buyPrice * bf),
                           OrderResult(Filled, q, sellPrice, q * sellPrice * sf));
      var margin := Margin(netBps / 10000.0, bf, sf);
      pnl == q * buyPrice * margin && (pnl > 0.0 <==> margin > 0.0)
  {
    hide SpreadBps, Margin;
    var k := SellPriceFromSpread(buyPrice, sellPrice, netBps, bf + sf);
    var w := q * buyPrice;
    MulPositive(q, buyPrice);
    assert q * sellPrice == w + w * k by {
      Distribute(q, buyPrice, buyPrice * k);
      Associate(q, buyPrice, k);
    }
    var margin := Margin(netBps / 10000.0, bf, sf);
    MarginOfFlows(w, k, netBps / 10000.0, bf, sf);
    SignOfProduct(w, margin);
  }

  lemma SignOfProduct(w: real, x: real)
    requires w > 0.0
    ensures w * x > 0.0 <==> x > 0.0
  {
    if x > 0.0 {
      MulPositive(w, x);
    } else {
      MulMonotone(w, x, 0.0);
    }
  }

  /** On unchanged books the check leaves out nothing but the fee: the buyer's
      quote balance dips by no more than that, and not at all exactly when it
      covers the fee too. */
  lemma BuyerDipsByFeeAtMost(pair: string, buy: OrderBookSnapshot, sell: OrderBookSnapshot, settings: Settings,
                             fees: FeeCache, now: int, b: Balances, inputs: Inputs)
    requires GoodAsks(buy.asks) && GoodBids(sell.bids) && buy.exchange != sell.exchange
    requires BaseAsset(pair) != Quote(pair)
    requires Candidate(pair, buy, sell, settings, fees, now).Some?
    requires Unchanged(buy, sell, pair, fees, inputs)
    requires Accepts(b, Candidate(pair, buy, sell, settings, fees, now).value, inputs)
    ensures var o := Candidate(pair, buy, sell, settings, fees, now).value;
      var bf := TakerFee(fees, buy.exchange, pair);
      var before, after := Balance(b, buy.exchange, Quote(pair)),
                           Balance(Settle(b, Executed(b, o, inputs)), buy.exchange, Quote(pair));
      && after >= -(o.quantity * o.buyPrice * bf)
      && (after >= 0.0 <==> before >= o.quantity * o.buyPrice * (1.0 + bf))
  {
    hide Candidate, Effective, MaxArb, TakerFee, SpreadBps, Executed, BaseAsset, Quote, Balance, Settle;
    var o := Candidate(pair, buy, sell, settings, fees, now).value;
    EmittedIsSound(pair, buy, sell, settings, fees, now);
    EmittedFillsAsAdvertised(pair, buy, sell, settings, fees, now, b, inputs);
    AcceptedCovers(b, o, inputs);
    BuyerPaysCostAndFee(b, o, inputs);
    Distribute(o.quantity * o.buyPrice, 1.0, TakerFee(fees, buy.exchange, pair));
  }
}
