/** What the spread detector makes of one ordered pair of books
    (src/strategy/spread_detector.h). */
module Candidates {
  import opened Types
  import opened RealFacts
  import opened DepthWalk
  import opened DepthAnalyzer
  import opened PriceLevels
  import opened Fees

  datatype Settings = Settings(minNetBps: real, minTradeUsd: real, maxTradeUsd: real)

  const NS_PER_MS := 1000000
  const MAX_AGE_MS := 5000

  /** A duration cast: division that truncates towards zero. */
  function ToMs(ns: int): int {
    if ns >= 0 then ns / NS_PER_MS else -((-ns) / NS_PER_MS)
  }

  /** The tests before the depth search. */
  predicate QuickFilters(buy: OrderBookSnapshot, sell: OrderBookSnapshot, settings: Settings, feeRate: real, now: int) {
    && buy.asks != [] && sell.bids != []
    && ToMs(now - buy.localTimestamp) <= MAX_AGE_MS && ToMs(now - sell.localTimestamp) <= MAX_AGE_MS
    && buy.asks[0].price > 0.0 && sell.bids[0].price > buy.asks[0].price
    && SpreadBps(buy.asks[0].price, sell.bids[0].price) - feeRate * 10000.0 >= settings.minNetBps
  }

  /** The quantity and effective prices after the size cap, if every recheck passes. */
  function Sized(asks: seq<PriceLevel>, bids: seq<PriceLevel>, settings: Settings, maxQuantity: real)
    : Option<(real, real, real)>
  {
    var buy, sell := Effective(Buy, asks, maxQuantity), Effective(Sell, bids, maxQuantity);
    if !buy.fullyFillable || !sell.fullyFillable || buy.avgPrice <= 0.0 then None
    else
      var tradeSizeUsd := buy.avgPrice * maxQuantity;
      if tradeSizeUsd < settings.minTradeUsd then None
      else if tradeSizeUsd <= settings.maxTradeUsd then Some((maxQuantity, buy.avgPrice, sell.avgPrice))
      else
        var quantity := settings.maxTradeUsd / buy.avgPrice;
        var buy', sell' := Effective(Buy, asks, quantity), Effective(Sell, bids, quantity);
        if !buy'.fullyFillable || !sell'.fullyFillable || buy'.avgPrice <= 0.0 then None
        else Some((quantity, buy'.avgPrice, sell'.avgPrice))
  }

  function Candidate(pair: string, buy: OrderBookSnapshot, sell: OrderBookSnapshot,
                     settings: Settings, fees: FeeCache, now: int): Option<ArbitrageOpportunity>
  {
    var feeRate := TotalFeeRate(fees, buy.exchange, sell.exchange, pair);
    if !QuickFilters(buy, sell, settings, feeRate, now) then None
    else
      var maxQuantity := MaxArb(buy.asks, sell.bids, settings.minNetBps, feeRate);
      if maxQuantity <= 0.0 then None
      else
        match Sized(buy.asks, sell.bids, settings, maxQuantity)
        case None => None
        case Some((quantity, buyPrice, sellPrice)) =>
          if buyPrice == 0.0 then None
          else
            var gross := SpreadBps(buyPrice, sellPrice);
            var net := gross - feeRate * 10000.0;
            if net < settings.minNetBps then None
            else
              Some(ArbitrageOpportunity(pair, buy.exchange, sell.exchange, buyPrice, sellPrice, quantity, gross, net))
  }

  method SizeTrade(asks: seq<PriceLevel>, bids: seq<PriceLevel>, settings: Settings, maxQuantity: real)
    returns (r: Option<(real, real, real)>)
    ensures r == Sized(asks, bids, settings, maxQuantity)
    ensures r.Some? ==> r.value.1 > 0.0
  {
    hide Effective;
    var buy := EffectiveBuyPrice(asks, maxQuantity);
    var sell := EffectiveSellPrice(bids, maxQuantity);
    if !buy.fullyFillable || !sell.fullyFillable {
      return None;
    }
    if buy.avgPrice <= 0.0 {
      return None;
    }
    var tradeSizeUsd := buy.avgPrice * maxQuantity;
    if tradeSizeUsd < settings.minTradeUsd {
      return None;
    }
    var actual := maxQuantity;
    if tradeSizeUsd > settings.maxTradeUsd {
      actual := settings.maxTradeUsd / buy.avgPrice;
      buy := EffectiveBuyPrice(asks, actual);
      sell := EffectiveSellPrice(bids, actual);
      if !buy.fullyFillable || !sell.fullyFillable {
        return None;
      }
      if buy.avgPrice <= 0.0 {
        return None;
      }
    }
    r := Some((actual, buy.avgPrice, sell.avgPrice));
  }

  /** The body of the loops over ordered exchange pairs. */
  method Evaluate(pair: string, buy: OrderBookSnapshot, sell: OrderBookSnapshot,
                  settings: Settings, fees: FeeCache, now: int) returns (r: Option<ArbitrageOpportunity>)
    ensures r == Candidate(pair, buy, sell, settings, fees, now)
  {
    hide Sized, MaxArb, Effective;
    if buy.asks == [] || sell.bids == [] {
      return None;
    }
    if ToMs(now - buy.localTimestamp) > MAX_AGE_MS || ToMs(now - sell.localTimestamp) > MAX_AGE_MS {
      return None;
    }
    var topAsk, topBid := buy.asks[0].price, sell.bids[0].price;
    if topAsk <= 0.0 || topBid <= topAsk {
      return None;
    }
    var feeRate := TotalFeeRate(fees, buy.exchange, sell.exchange, pair);
    var quickGrossBps := (topBid - topAsk) / topAsk * 10000.0;
    var quickNetBps := quickGrossBps - feeRate * 10000.0;
    if quickNetBps < settings.minNetBps {
      return None;
    }
    var maxQuantity := MaxArbQuantity(buy.asks, sell.bids, settings.minNetBps, feeRate);
    if maxQuantity <= 0.0 {
      return None;
    }
    var sized := SizeTrade(buy.asks, sell.bids, settings, maxQuantity);
    if sized.None? {
      return None;
    }
    var (quantity, buyPrice, sellPrice) := sized.value;
    var grossBps := (sellPrice - buyPrice) / buyPrice * 10000.0;
    var netBps := grossBps - feeRate * 10000.0;
    if netBps < settings.minNetBps {
      return None;
    }
    r := Some(ArbitrageOpportunity(pair, buy.exchange, sell.exchange, buyPrice, sellPrice, quantity, grossBps, netBps));
  }

  // ----- what the rechecks can and cannot do -----

  lemma CapShrinks(avg: real, quantity: real, cap: real) returns (capped: real)
    requires avg > 0.0 && quantity > 0.0 && cap < avg * quantity
    ensures capped == cap / avg && capped * avg == cap && capped < quantity
    ensures capped > 0.0 <==> cap > 0.0
  {
    capped := cap / avg;
    QuotientTimes(cap, avg);
    if capped >= quantity {
      MulMonotone(avg, quantity, capped);
    }
    if capped > 0.0 {
      MulPositive(capped, avg);
    }
    if capped <= 0.0 {
      MulMonotone(avg, capped, 0.0);
    }
  }

  /** From a feasible quantity the sizing step succeeds exactly when the trade
      is big enough and the cap is positive. A trade within the cap keeps its
      quantity; of any other the cap buys what it pays for at the price of the
      larger trade, which is feasible and worth no more than the cap. */
  lemma SizedIff(asks: seq<PriceLevel>, bids: seq<PriceLevel>, settings: Settings, feeRate: real, maxQuantity: real)
    requires GoodAsks(asks) && GoodBids(bids)
    requires Feasible(asks, bids, settings.minNetBps, feeRate, maxQuantity)
    ensures var r, avg := Sized(asks, bids, settings, maxQuantity), Effective(Buy, asks, maxQuantity).avgPrice;
      && (r.Some? <==> avg * maxQuantity >= settings.minTradeUsd && settings.maxTradeUsd > 0.0)
      && (r.Some? && avg * maxQuantity <= settings.maxTradeUsd ==> r.value.0 == maxQuantity)
      && (r.Some? && avg * maxQuantity > settings.maxTradeUsd ==> r.value.0 * avg == settings.maxTradeUsd)
      && (r.Some? ==>
           && 0.0 < r.value.0 <= maxQuantity
           && r.value.1 == Effective(Buy, asks, r.value.0).avgPrice
           && r.value.2 == Effective(Sell, bids, r.value.0).avgPrice
           && Feasible(asks, bids, settings.minNetBps, feeRate, r.value.0)
           && r.value.1 * r.value.0 <= settings.maxTradeUsd)
  {
    hide Effective, SpreadBps;
    FeasibleBounds(asks, bids, settings.minNetBps, feeRate, maxQuantity);
    var avg := Effective(Buy, asks, maxQuantity).avgPrice;
    MulPositive(avg, maxQuantity);
    if settings.maxTradeUsd < avg * maxQuantity {
      if settings.maxTradeUsd > 0.0 {
        CappedTrade(asks, bids, settings.minNetBps, feeRate, settings.maxTradeUsd, maxQuantity);
      } else {
        var capped := CapShrinks(avg, maxQuantity, settings.maxTradeUsd);
        NothingToFill(Buy, asks, capped);
      }
    }
  }

  lemma CappedTrade(asks: seq<PriceLevel>, bids: seq<PriceLevel>, minNetBps: real, feeRate: real, cap: real,
                    maxQuantity: real)
    requires GoodAsks(asks) && GoodBids(bids)
    requires Feasible(asks, bids, minNetBps, feeRate, maxQuantity) && maxQuantity > 0.0
    requires 0.0 < cap < Effective(Buy, asks, maxQuantity).avgPrice * maxQuantity
    ensures var capped := cap / Effective(Buy, asks, maxQuantity).avgPrice;
      && 0.0 < capped <= maxQuantity
      && Feasible(asks, bids, minNetBps, feeRate, capped)
      && Effective(Buy, asks, capped).avgPrice * capped <= cap
  {
    hide Effective, SpreadBps, Feasible;
    FeasibleBounds(asks, bids, minNetBps, feeRate, maxQuantity);
    var avg := Effective(Buy, asks, maxQuantity).avgPrice;
    var capped := CapShrinks(avg, maxQuantity, cap);
    CheaperWhenSmaller(asks, capped, maxQuantity);
    WorthAtMost(Effective(Buy, asks, capped).avgPrice, avg, capped, cap);
    FeasibleDownwards(asks, bids, minNetBps, feeRate, capped, maxQuantity);
  }

  lemma WorthAtMost(price: real, dearer: real, quantity: real, cap: real)
    requires quantity > 0.0 && price <= dearer && quantity * dearer == cap
    ensures price * quantity <= cap
  {
    MulMonotone(quantity, price, dearer);
  }

  lemma NothingToFill(side: Side, levels: seq<PriceLevel>, quantity: real)
    requires quantity <= 0.0
    ensures !Effective(side, levels, quantity).fullyFillable
  {
  }

  lemma CheaperWhenSmaller(asks: seq<PriceLevel>, small: real, large: real)
    requires GoodAsks(asks) && 0.0 < small <= large <= Total(asks)
    ensures Effective(Buy, asks, small).avgPrice <= Effective(Buy, asks, large).avgPrice
  {
    hide Effective, Vwap;
    EffectiveIsVwap(Buy, asks, small);
    EffectiveIsVwap(Buy, asks, large);
    BuyVwapRises(asks, small, large);
  }

  /** An offer is made exactly when both books are younger than 5001 ms, cross at
      the top and hold a feasible quantity that is big enough, under a positive
      cap: the quick test of the spread and the rechecks never reject. */
  lemma RechecksNeverReject(pair: string, buy: OrderBookSnapshot, sell: OrderBookSnapshot,
                            settings: Settings, fees: FeeCache, now: int)
    requires GoodAsks(buy.asks) && GoodBids(sell.bids)
    ensures var feeRate := TotalFeeRate(fees, buy.exchange, sell.exchange, pair);
      var maxQuantity := MaxArb(buy.asks, sell.bids, settings.minNetBps, feeRate);
      Candidate(pair, buy, sell, settings, fees, now).Some? <==>
        && now - buy.localTimestamp < 5001 * 1000000 && now - sell.localTimestamp < 5001 * 1000000
        && CrossedTop(buy.asks, sell.bids) && maxQuantity > 0.0
        && Effective(Buy, buy.asks, maxQuantity).avgPrice * maxQuantity >= settings.minTradeUsd
        && settings.maxTradeUsd > 0.0
  {
    hide Effective, MaxArb, Sized, QuickFilters, Feasible;
    var feeRate := TotalFeeRate(fees, buy.exchange, sell.exchange, pair);
    var maxQuantity := MaxArb(buy.asks, sell.bids, settings.minNetBps, feeRate);
    MaxArbSound(buy.asks, sell.bids, settings.minNetBps, feeRate);
    if maxQuantity > 0.0 {
      SizedIff(buy.asks, sell.bids, settings, feeRate, maxQuantity);
      FiltersIff(buy, sell, settings, feeRate, now, maxQuantity);
      if Sized(buy.asks, sell.bids, settings, maxQuantity).Some? {
        FeasiblePrices(buy.asks, sell.bids, settings.minNetBps, feeRate,
                       Sized(buy.asks, sell.bids, settings, maxQuantity).value.0);
      }
    }
  }

  lemma FeasiblePrices(asks: seq<PriceLevel>, bids: seq<PriceLevel>, minNetBps: real, feeRate: real, quantity: real)
    requires Feasible(asks, bids, minNetBps, feeRate, quantity)
    ensures var buy, sell := Effective(Buy, asks, quantity), Effective(Sell, bids, quantity);
      buy.avgPrice > 0.0 && SpreadBps(buy.avgPrice, sell.avgPrice) - feeRate * 10000.0 >= minNetBps
  {
    hide Effective, SpreadBps;
  }

  /** Once some quantity is feasible the quick filters are the ages and the crossing. */
  lemma FiltersIff(buy: OrderBookSnapshot, sell: OrderBookSnapshot, settings: Settings, feeRate: real, now: int,
                   quantity: real)
    requires GoodAsks(buy.asks) && GoodBids(sell.bids)
    requires Feasible(buy.asks, sell.bids, settings.minNetBps, feeRate, quantity)
    ensures QuickFilters(buy, sell, settings, feeRate, now) <==>
      && now - buy.localTimestamp < 5001 * 1000000 && now - sell.localTimestamp < 5001 * 1000000
      && CrossedTop(buy.asks, sell.bids)
  {
    hide SpreadBps, Feasible, ToMs;
    AgeIff(now - buy.localTimestamp);
    AgeIff(now - sell.localTimestamp);
    if CrossedTop(buy.asks, sell.bids) {
      if SpreadBps(buy.asks[0].price, sell.bids[0].price) - feeRate * 10000.0 < settings.minNetBps {
        QuickFilterLosesNothing(buy.asks, sell.bids, settings.minNetBps, feeRate, quantity);
      }
    }
  }

  /** The cast rounds towards zero, so an age in the millisecond after the bound still passes. */
  lemma AgeIff(ns: int)
    ensures ToMs(ns) <= MAX_AGE_MS <==> ns < 5001 * 1000000
  {
  }

  /** Whatever the books, an offer comes from two that are younger than 5001 ms
      and cross at a positive best ask. */
  lemma EmittedIsFresh(pair: string, buy: OrderBookSnapshot, sell: OrderBookSnapshot,
                       settings: Settings, fees: FeeCache, now: int)
    requires Candidate(pair, buy, sell, settings, fees, now).Some?
    ensures now - buy.localTimestamp < 5001 * 1000000 && now - sell.localTimestamp < 5001 * 1000000
    ensures CrossedTop(buy.asks, sell.bids) && buy.asks[0].price > 0.0
  {
    hide Sized, MaxArb, SpreadBps, ToMs;
    AgeIff(now - buy.localTimestamp);
    AgeIff(now - sell.localTimestamp);
  }

  /** Whatever the books, what sizing returns can be filled on both sides at its own
      prices; it is what the search found or, of a larger notional than the cap,
      what the cap buys at the price of the whole. */
  lemma SizedOnAnyBooks(asks: seq<PriceLevel>, bids: seq<PriceLevel>, settings: Settings, maxQuantity: real)
    requires Sized(asks, bids, settings, maxQuantity).Some?
    ensures var (quantity, buyPrice, sellPrice) := Sized(asks, bids, settings, maxQuantity).value;
      var buy, sell := Effective(Buy, asks, quantity), Effective(Sell, bids, quantity);
      var avg := Effective(Buy, asks, maxQuantity).avgPrice;
      && buy.fullyFillable && sell.fullyFillable && buyPrice == buy.avgPrice > 0.0 && sellPrice == sell.avgPrice
      && avg * maxQuantity >= settings.minTradeUsd
      && (if avg * maxQuantity <= settings.maxTradeUsd then quantity == maxQuantity
          else quantity * avg == settings.maxTradeUsd)
  {
    hide Effective;
    var avg := Effective(Buy, asks, maxQuantity).avgPrice;
    if avg > 0.0 {
      QuotientTimes(settings.maxTradeUsd, avg);
    }
  }

  /** Whatever the books, an offer is feasible at its own quantity and prices. */
  lemma EmittedIsFeasible(pair: string, buy: OrderBookSnapshot, sell: OrderBookSnapshot,
                          settings: Settings, fees: FeeCache, now: int)
    requires Candidate(pair, buy, sell, settings, fees, now).Some?
    ensures var o := Candidate(pair, buy, sell, settings, fees, now).value;
      var feeRate := TotalFeeRate(fees, buy.exchange, sell.exchange, pair);
      && o.pair == pair && o.buyExchange == buy.exchange && o.sellExchange == sell.exchange
      && Feasible(buy.asks, sell.bids, settings.minNetBps, feeRate, o.quantity)
      && o.buyPrice == Effective(Buy, buy.asks, o.quantity).avgPrice > 0.0
      && o.sellPrice == Effective(Sell, sell.bids, o.quantity).avgPrice
      && o.grossSpreadBps == SpreadBps(o.buyPrice, o.sellPrice)
      && o.netSpreadBps == o.grossSpreadBps - feeRate * 10000.0 >= settings.minNetBps
  {
    hide Effective, MaxArb, Sized, QuickFilters;
    var feeRate := TotalFeeRate(fees, buy.exchange, sell.exchange, pair);
    SizedOnAnyBooks(buy.asks, sell.bids, settings, MaxArb(buy.asks, sell.bids, settings.minNetBps, feeRate));
  }

  /** Every emitted opportunity can be filled in full at its advertised
      prices, clears the minimum net spread and respects the size cap. */
  lemma EmittedIsSound(pair: string, buy: OrderBookSnapshot, sell: OrderBookSnapshot,
                       settings: Settings, fees: FeeCache, now: int)
    requires GoodAsks(buy.asks) && GoodBids(sell.bids)
    requires Candidate(pair, buy, sell, settings, fees, now).Some?
    ensures var o := Candidate(pair, buy, sell, settings, fees, now).value;
      var feeRate := TotalFeeRate(fees, buy.exchange, sell.exchange, pair);
      && o.pair == pair && o.buyExchange == buy.exchange && o.sellExchange == sell.exchange
      && 0.0 < o.quantity <= MaxArb(buy.asks, sell.bids, settings.minNetBps, feeRate)
      && Feasible(buy.asks, sell.bids, settings.minNetBps, feeRate, o.quantity)
      && o.buyPrice == Effective(Buy, buy.asks, o.quantity).avgPrice > 0.0
      && o.sellPrice == Effective(Sell, sell.bids, o.quantity).avgPrice
      && o.grossSpreadBps == SpreadBps(o.buyPrice, o.sellPrice)
      && o.netSpreadBps == o.grossSpreadBps - feeRate * 10000.0 >= settings.minNetBps
      && o.buyPrice * o.quantity <= settings.maxTradeUsd
  {
    hide Effective, MaxArb, Sized, QuickFilters;
    var feeRate := TotalFeeRate(fees, buy.exchange, sell.exchange, pair);
    var maxQuantity := MaxArb(buy.asks, sell.bids, settings.minNetBps, feeRate);
    MaxArbSound(buy.asks, sell.bids, settings.minNetBps, feeRate);
    if maxQuantity > 0.0 {
      SizedIff(buy.asks, sell.bids, settings, feeRate, maxQuantity);
    }
  }

  ghost predicate CrossedTop(asks: seq<PriceLevel>, bids: seq<PriceLevel>) {
    asks != [] && bids != [] && bids[0].price > asks[0].price
  }

  /** Some quantity has a net spread strictly above the minimum, as firing demands. */
  ghost predicate Worthwhile(asks: seq<PriceLevel>, bids: seq<PriceLevel>, minNetBps: real, feeRate: real) {
    exists q: real :: Feasible(asks, bids, minNetBps, feeRate, q)
      && SpreadBps(Effective(Buy, asks, q).avgPrice, Effective(Sell, bids, q).avgPrice) - feeRate * 10000.0 > minNetBps
  }

  /** The test for a crossed top of book loses nothing exactly when the fees
      and the minimum together are not negative. */
  lemma CrossingFilterLosesNothingIff(minNetBps: real, feeRate: real)
    ensures (forall asks, bids :: GoodAsks(asks) && GoodBids(bids) && Worthwhile(asks, bids, minNetBps, feeRate)
              ==> CrossedTop(asks, bids))
      <==> minNetBps + feeRate * 10000.0 >= 0.0
  {
    hide Effective, SpreadBps;
    if minNetBps + feeRate * 10000.0 >= 0.0 {
      forall asks, bids | GoodAsks(asks) && GoodBids(bids) && Worthwhile(asks, bids, minNetBps, feeRate)
        ensures CrossedTop(asks, bids)
      {
        var q: real :| Feasible(asks, bids, minNetBps, feeRate, q)
          && SpreadBps(Effective(Buy, asks, q).avgPrice, Effective(Sell, bids, q).avgPrice)
             - feeRate * 10000.0 > minNetBps;
        WorthwhileIsCrossed(asks, bids, minNetBps, feeRate, q);
      }
    } else {
      var flat := [PriceLevel(1.0, 1.0)];
      FlatBook(flat);
      assert Feasible(flat, flat, minNetBps, feeRate, 1.0);
      assert Worthwhile(flat, flat, minNetBps, feeRate) && !CrossedTop(flat, flat);
    }
  }

  lemma FlatBook(flat: seq<PriceLevel>)
    requires flat == [PriceLevel(1.0, 1.0)]
    ensures GoodAsks(flat) && GoodBids(flat)
    ensures Effective(Buy, flat, 1.0).fullyFillable && Effective(Buy, flat, 1.0).avgPrice == 1.0
    ensures Effective(Sell, flat, 1.0).fullyFillable && Effective(Sell, flat, 1.0).avgPrice == 1.0
    ensures SpreadBps(1.0, 1.0) == 0.0
  {
    assert Remaining(flat, 1.0) == 0.0;
    assert Cost(flat, 1.0) == 1.0;
  }

  lemma WorthwhileIsCrossed(asks: seq<PriceLevel>, bids: seq<PriceLevel>, minNetBps: real, feeRate: real, q: real)
    requires GoodAsks(asks) && GoodBids(bids) && minNetBps + feeRate * 10000.0 >= 0.0
    requires Feasible(asks, bids, minNetBps, feeRate, q)
    requires SpreadBps(Effective(Buy, asks, q).avgPrice, Effective(Sell, bids, q).avgPrice)
      - feeRate * 10000.0 > minNetBps
    ensures CrossedTop(asks, bids)
  {
    hide Effective, Vwap, SpreadBps;
    FeasibleBounds(asks, bids, minNetBps, feeRate, q);
    EffectiveIsVwap(Buy, asks, q);
    EffectiveIsVwap(Sell, bids, q);
    BuyVwapAtLeastTop(asks, q);
    SellVwapAtMostTop(bids, q);
    PositiveSpread(Vwap(asks, q), Vwap(bids, q));
  }

  lemma PositiveSpread(buy: real, sell: real)
    requires buy > 0.0 && SpreadBps(buy, sell) > 0.0
    ensures sell > buy
  {
    QuotientTimes(sell - buy, buy);
    if sell <= buy {
      MulMonotone(buy, 0.0, (sell - buy) / buy);
    }
  }

  /** The size test comes before the cap: a trade the cap left alone reaches the
      minimum size, but under a cap below the minimum every trade is too small. */
  lemma CapDecidesSize(asks: seq<PriceLevel>, bids: seq<PriceLevel>, settings: Settings, feeRate: real,
                       maxQuantity: real)
    requires GoodAsks(asks) && GoodBids(bids)
    requires Feasible(asks, bids, settings.minNetBps, feeRate, maxQuantity)
    requires Effective(Buy, asks, maxQuantity).avgPrice * maxQuantity >= settings.minTradeUsd
    requires settings.maxTradeUsd > 0.0
    ensures var r := Sized(asks, bids, settings, maxQuantity);
      && r.Some?
      && (r.value.0 == maxQuantity ==> r.value.1 * r.value.0 >= settings.minTradeUsd)
      && (settings.maxTradeUsd < settings.minTradeUsd ==> r.value.1 * r.value.0 < settings.minTradeUsd)
  {
    hide Sized, Effective, Feasible;
    SizedIff(asks, bids, settings, feeRate, maxQuantity);
  }

  /** The sides an order book serves are good sides once their prices are positive. */
  lemma ServedSidesAreGood(bids: seq<PriceLevel>, asks: seq<PriceLevel>)
    requires PositivePrices(bids) && PositivePrices(asks)
    ensures GoodSide(true, bids) <==> GoodBids(bids)
    ensures GoodSide(false, asks) <==> GoodAsks(asks)
  {
  }
}
