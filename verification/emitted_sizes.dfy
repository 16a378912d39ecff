/** Emitted opportunities against the configured minimum size
    (src/strategy/spread_detector.h). */
module EmittedSizes {
  import opened Types
  import opened RealFacts
  import opened DepthWalk
  import opened DepthAnalyzer
  import opened Fees
  import opened Candidates

  ghost predicate ReachesMinimum(settings: Settings, o: ArbitrageOpportunity) {
    o.buyPrice * o.quantity >= settings.minTradeUsd
  }

  ghost predicate AllEmittedReachMinimum(pair: string, settings: Settings, fees: FeeCache, now: int) {
    forall buy: OrderBookSnapshot, sell: OrderBookSnapshot ::
      GoodAsks(buy.asks) && GoodBids(sell.bids) && Candidate(pair, buy, sell, settings, fees, now).Some? ==>
        ReachesMinimum(settings, Candidate(pair, buy, sell, settings, fees, now).value)
  }

  /** On every pair of books what the detector emits reaches the minimum size
      exactly when there is no minimum to reach or no positive cap, under which
      nothing is emitted. Even a cap far above the minimum is no remedy: the
      smaller quantity is also cheaper. */
  lemma EmittedReachMinimumIff(pair: string, settings: Settings, fees: FeeCache, now: int)
    ensures AllEmittedReachMinimum(pair, settings, fees, now)
      <==> settings.minTradeUsd <= 0.0 || settings.maxTradeUsd <= 0.0
  {
    hide Candidate, ReachesMinimum;
    if settings.minTradeUsd <= 0.0 || settings.maxTradeUsd <= 0.0 {
      forall buy: OrderBookSnapshot, sell: OrderBookSnapshot | GoodAsks(buy.asks) && GoodBids(sell.bids)
        && Candidate(pair, buy, sell, settings, fees, now).Some?
        ensures ReachesMinimum(settings, Candidate(pair, buy, sell, settings, fees, now).value)
      {
        NothingToReach(pair, buy, sell, settings, fees, now);
      }
    } else {
      var buy, sell := TooSmallTrade(pair, settings, fees, now);
    }
  }

  lemma NothingToReach(pair: string, buy: OrderBookSnapshot, sell: OrderBookSnapshot, settings: Settings,
                       fees: FeeCache, now: int)
    requires GoodAsks(buy.asks) && GoodBids(sell.bids) && Candidate(pair, buy, sell, settings, fees, now).Some?
    requires settings.minTradeUsd <= 0.0 || settings.maxTradeUsd <= 0.0
    ensures ReachesMinimum(settings, Candidate(pair, buy, sell, settings, fees, now).value)
  {
    hide Candidate, Effective, MaxArb, TakerFee, SpreadBps, QuickFilters, Feasible;
    RechecksNeverReject(pair, buy, sell, settings, fees, now);
    EmittedIsSound(pair, buy, sell, settings, fees, now);
    var o := Candidate(pair, buy, sell, settings, fees, now).value;
    MulPositive(o.buyPrice, o.quantity);
  }

  // ----- a trade that is too small -----

  /** One unit at half the minimum, and one so dear that the cap keeps less than a unit. */
  function SteepAsks(settings: Settings): seq<PriceLevel> {
    [PriceLevel(LowPrice(settings), 1.0), PriceLevel(HighPrice(settings), 1.0)]
  }

  function LowPrice(settings: Settings): real {
    settings.minTradeUsd / 2.0
  }

  function HighPrice(settings: Settings): real {
    settings.minTradeUsd + 4.0 * settings.maxTradeUsd
  }

  lemma TooSmallTrade(pair: string, settings: Settings, fees: FeeCache, now: int)
    returns (buy: OrderBookSnapshot, sell: OrderBookSnapshot)
    requires settings.minTradeUsd > 0.0 && settings.maxTradeUsd > 0.0
    ensures GoodAsks(buy.asks) && GoodBids(sell.bids) && Candidate(pair, buy, sell, settings, fees, now).Some?
    ensures !ReachesMinimum(settings, Candidate(pair, buy, sell, settings, fees, now).value)
  {
    hide Candidate, Sized, MaxArb, SpreadBps, TakerFee;
    var low, high := LowPrice(settings), HighPrice(settings);
    var feeRate := TotalFeeRate(fees, BINANCE, OKX, pair);
    var avg := (low + high) / 2.0;
    var top := RichPrice(avg, settings.minNetBps, feeRate);
    var asks, bids := SteepAsks(settings), [PriceLevel(top, 2.0)];
    buy, sell := OrderBookSnapshot(BINANCE, pair, [], asks, 0, now), OrderBookSnapshot(OKX, pair, bids, [], 0, now);
    SpreadOrder(low, top, avg, top);
    assert QuickFilters(buy, sell, settings, feeRate, now);
    var q := FoundQuantity(settings, feeRate, top);
    var capped := CappedQuantity(settings, feeRate, top, q);
    hide QuickFilters, LowPrice, HighPrice;
    SizedIsEmitted(pair, buy, sell, settings, fees, now, capped, low, top);
    CappedIsTooSmall(settings, capped);
  }

  lemma SizedIsEmitted(pair: string, buy: OrderBookSnapshot, sell: OrderBookSnapshot, settings: Settings,
                       fees: FeeCache, now: int, quantity: real, buyPrice: real, sellPrice: real)
    requires var feeRate := TotalFeeRate(fees, buy.exchange, sell.exchange, pair);
      var maxQuantity := MaxArb(buy.asks, sell.bids, settings.minNetBps, feeRate);
      && QuickFilters(buy, sell, settings, feeRate, now) && maxQuantity > 0.0 && buyPrice > 0.0
      && Sized(buy.asks, sell.bids, settings, maxQuantity) == Some((quantity, buyPrice, sellPrice))
      && SpreadBps(buyPrice, sellPrice) - feeRate * 10000.0 >= settings.minNetBps
    ensures var r := Candidate(pair, buy, sell, settings, fees, now);
      r.Some? && r.value.quantity == quantity && r.value.buyPrice == buyPrice
  {
    hide QuickFilters, Sized, MaxArb, SpreadBps, TotalFeeRate;
  }

  lemma CappedIsTooSmall(settings: Settings, capped: real)
    requires settings.minTradeUsd > 0.0 && 0.0 < capped < 1.0
    ensures LowPrice(settings) * capped < settings.minTradeUsd
  {
    MulMonotone(LowPrice(settings), capped, 1.0);
  }

  /** The search finds more than one and a half of the two units. */
  lemma FoundQuantity(settings: Settings, feeRate: real, top: real) returns (q: real)
    requires settings.minTradeUsd > 0.0 && settings.maxTradeUsd > 0.0 && top > 0.0
    requires SpreadBps((LowPrice(settings) + HighPrice(settings)) / 2.0, top) - feeRate * 10000.0 >= settings.minNetBps
    ensures var asks, bids := SteepAsks(settings), [PriceLevel(top, 2.0)];
      && GoodAsks(asks) && GoodBids(bids) && q == MaxArb(asks, bids, settings.minNetBps, feeRate)
      && 1.5 < q <= 2.0 && Feasible(asks, bids, settings.minNetBps, feeRate, q)
  {
    var asks, bids := SteepAsks(settings), [PriceLevel(top, 2.0)];
    TwoUnits(LowPrice(settings), HighPrice(settings), top);
    assert Feasible(asks, bids, settings.minNetBps, feeRate, 2.0);
    TotalOfTwo(asks[0], asks[1], bids[0]);
    q := MaxArb(asks, bids, settings.minNetBps, feeRate);
    MaxArbNearOptimal(asks, bids, settings.minNetBps, feeRate, 2.0);
    MaxArbSound(asks, bids, settings.minNetBps, feeRate);
    hide MaxArb, Effective, Feasible, Total, LowPrice, HighPrice;
    TwoOverPow(50);
    FeasibleBounds(asks, bids, settings.minNetBps, feeRate, q);
  }

  lemma TotalOfTwo(a: PriceLevel, b: PriceLevel, c: PriceLevel)
    ensures Total([a, b]) == a.quantity + b.quantity && Total([c]) == c.quantity
  {
    assert [a, b][1..] == [b];
    assert Total([b]) == b.quantity;
  }

  lemma {:induction false} Pow2Above(n: nat)
    ensures Pow2(n) >= n as real + 1.0
  {
    if n > 0 {
      Pow2Above(n - 1);
    }
  }

  lemma TwoOverPow(n: nat)
    requires n >= 4
    ensures 2.0 / Pow2(n) <= 0.4
  {
    Pow2Above(n);
    AtMostByCost(0.4, 2.0, Pow2(n));
  }

  /** Its cost exceeds the minimum and twice the cap, so the cap leaves less than a unit. */
  lemma CappedQuantity(settings: Settings, feeRate: real, top: real, q: real) returns (capped: real)
    requires settings.minTradeUsd > 0.0 && settings.maxTradeUsd > 0.0 && top > 0.0 && 1.5 < q <= 2.0
    requires Feasible(SteepAsks(settings), [PriceLevel(top, 2.0)], settings.minNetBps, feeRate, q)
    ensures 0.0 < capped < 1.0
    ensures Sized(SteepAsks(settings), [PriceLevel(top, 2.0)], settings, q) == Some((capped, LowPrice(settings), top))
  {
    var low, high, cap := LowPrice(settings), HighPrice(settings), settings.maxTradeUsd;
    var asks := SteepAsks(settings);
    var avg := Effective(Buy, asks, q).avgPrice;
    CostBeyondOne(settings, q);
    capped := cap / avg;
    CappedBelowOne(cap, avg);
    PartOfOneUnit(low, high, top, capped);
    hide Effective, LowPrice, HighPrice, SpreadBps;
  }

  lemma CostBeyondOne(settings: Settings, q: real)
    requires settings.minTradeUsd > 0.0 && settings.maxTradeUsd > 0.0 && 1.5 < q <= 2.0
    ensures var avg := Effective(Buy, SteepAsks(settings), q).avgPrice;
      avg * q >= settings.minTradeUsd && avg * q > settings.maxTradeUsd && avg > settings.maxTradeUsd
  {
    var asks, low, high := SteepAsks(settings), LowPrice(settings), HighPrice(settings);
    var eff := Effective(Buy, asks, q);
    assert asks[1..] == [PriceLevel(high, 1.0)];
    assert Cost(asks[1..], q - 1.0) == Notional(q - 1.0, high);
    assert Cost(asks, q) == low + Notional(q - 1.0, high);
    TotalOfTwo(asks[0], asks[1], asks[0]);
    EffectiveFills(Buy, asks, q);
    assert eff.totalCost == Cost(asks, q);
    SameTimes(eff.quantityFilled, q, eff.avgPrice);
    hide Effective, Cost, Total, Notional;
    DearBeyondOne(settings.minTradeUsd, settings.maxTradeUsd, low, high, q, eff.avgPrice);
  }

  lemma DearBeyondOne(min: real, max: real, low: real, high: real, q: real, avg: real)
    requires min > 0.0 && max > 0.0 && low > 0.0 && high >= min + 4.0 * max && low >= min / 2.0 && 1.5 < q <= 2.0
    requires avg * q == low + Notional(q - 1.0, high)
    ensures avg * q >= min && avg * q > max && avg > max
  {
    var half := Notional(0.5, high);
    MulMonotone(high, 0.5, q - 1.0);
    assert Notional(q - 1.0, high) >= half && half >= min / 2.0 + 2.0 * max;
    var total := avg * q;
    assert total >= min + 2.0 * max;
    AverageAbove(total, q, avg, max);
  }

  lemma AverageAbove(total: real, q: real, avg: real, max: real)
    requires max > 0.0 && 0.0 < q <= 2.0 && avg * q == total > 2.0 * max
    ensures avg > max
  {
    MulMonotone(max, q, 2.0);
    QuotientOrder(max, avg, q);
    assert avg == max ==> max * q == total;
  }

  lemma RichPrice(avg: real, minNetBps: real, feeRate: real) returns (top: real)
    requires avg > 0.0
    ensures top >= avg && SpreadBps(avg, top) - feeRate * 10000.0 >= minNetBps
  {
    var wanted := minNetBps + feeRate * 10000.0;
    var k := (if wanted > 0.0 then wanted else 0.0) / 10000.0;
    top := avg + k * avg;
    if k > 0.0 {
      MulPositive(k, avg);
    }
    QuotientIs(top - avg, avg, k);
  }

  lemma CappedBelowOne(cap: real, avg: real)
    requires 0.0 < cap < avg
    ensures 0.0 < cap / avg < 1.0
  {
    QuotientTimes(cap, avg);
    if cap / avg >= 1.0 {
      MulMonotone(avg, 1.0, cap / avg);
    }
    if cap / avg <= 0.0 {
      MulMonotone(avg, cap / avg, 0.0);
    }
  }

  lemma TwoUnits(low: real, high: real, top: real)
    ensures var asks, bids := [PriceLevel(low, 1.0), PriceLevel(high, 1.0)], [PriceLevel(top, 2.0)];
      && Effective(Buy, asks, 2.0).fullyFillable && Effective(Buy, asks, 2.0).avgPrice == (low + high) / 2.0
      && Effective(Sell, bids, 2.0).fullyFillable && Effective(Sell, bids, 2.0).avgPrice == top
  {
    var asks, bids := [PriceLevel(low, 1.0), PriceLevel(high, 1.0)], [PriceLevel(top, 2.0)];
    assert asks[1..] == [PriceLevel(high, 1.0)];
    assert Remaining(asks[1..], 1.0) == 0.0 && Cost(asks[1..], 1.0) == high;
    assert Remaining(asks, 2.0) == 0.0 && Cost(asks, 2.0) == low + high;
    assert Remaining(bids, 2.0) == 0.0 && Cost(bids, 2.0) == 2.0 * top;
  }

  lemma PartOfOneUnit(low: real, high: real, top: real, q: real)
    requires 0.0 < q < 1.0
    ensures var asks, bids := [PriceLevel(low, 1.0), PriceLevel(high, 1.0)], [PriceLevel(top, 2.0)];
      && Effective(Buy, asks, q).fullyFillable && Effective(Buy, asks, q).avgPrice == low
      && Effective(Sell, bids, q).fullyFillable && Effective(Sell, bids, q).avgPrice == top
  {
    QuotientIs(q * low, q, low);
    QuotientIs(q * top, q, top);
  }
}
