/** What an accepted trade can do to the two balances it draws on. The fill
    ignores the price the trade was accepted at and the check ignores the fee
    (src/execution/paper_executor.cpp). */
module PaperSafety {
  import opened Types
  import opened RealFacts
  import opened DepthWalk
  import opened DepthAnalyzer
  import opened Fees
  import opened Assets
  import opened Ledgers
  import opened PaperExecutors

  /** What the matched quantity costs the buyer before the fee. */
  function CostOfMatched(r: TradeRecord): real {
    Notional(Matched(r.buyResult, r.sellResult), r.buyResult.avgFillPrice)
  }

  lemma ExecutedRoute(b: Balances, o: ArbitrageOpportunity, inputs: Inputs)
    ensures var r := Executed(b, o, inputs);
      r.pair == o.pair && r.buyExchange == o.buyExchange && r.sellExchange == o.sellExchange
  {
  }

  /** What a settled trade does to each account: the matched quantity changes hands
      at the two average prices, and each side pays its own fee. */
  lemma SettleMoves(b: Balances, r: TradeRecord, e: Exchange, asset: string)
    ensures var buy, sell, base, quote := r.buyResult, r.sellResult, BaseAsset(r.pair), Quote(r.pair);
      var matched := Min(buy.filledQuantity, sell.filledQuantity);
      Balance(Settle(b, r), e, asset) == Balance(b, e, asset)
        + (if e == r.buyExchange && asset == base then matched else 0.0)
        - (if e == r.buyExchange && asset == quote then buy.avgFillPrice * matched + buy.feePaid else 0.0)
        - (if e == r.sellExchange && asset == base then matched else 0.0)
        + (if e == r.sellExchange && asset == quote then sell.avgFillPrice * matched - sell.feePaid else 0.0)
  {
    hide Balance, Adjust, BaseAsset, QuoteAsset, Min;
    var base, quote := BaseAsset(r.pair), Quote(r.pair);
    var matched := Matched(r.buyResult, r.sellResult);
    var paid, received := BuyFlow(r.buyResult, r.sellResult), SellFlow(r.buyResult, r.sellResult);
    var b1 := Adjust(b, r.buyExchange, base, matched);
    var b2 := Adjust(b1, r.buyExchange, quote, paid);
    var b3 := Adjust(b2, r.sellExchange, base, -matched);
    AdjustBalance(b, r.buyExchange, base, matched, e, asset);
    AdjustBalance(b1, r.buyExchange, quote, paid, e, asset);
    AdjustBalance(b2, r.sellExchange, base, -matched, e, asset);
    AdjustBalance(b3, r.sellExchange, quote, received, e, asset);
  }

  lemma SettledBalances(b: Balances, r: TradeRecord)
    requires BaseAsset(r.pair) != Quote(r.pair)
    ensures Balance(Settle(b, r), r.buyExchange, Quote(r.pair))
         == Balance(b, r.buyExchange, Quote(r.pair)) + BuyFlow(r.buyResult, r.sellResult)
            + if r.buyExchange == r.sellExchange then SellFlow(r.buyResult, r.sellResult) else 0.0
    ensures Balance(Settle(b, r), r.sellExchange, BaseAsset(r.pair))
         == Balance(b, r.sellExchange, BaseAsset(r.pair)) - Matched(r.buyResult, r.sellResult)
            + if r.buyExchange == r.sellExchange then Matched(r.buyResult, r.sellResult) else 0.0
  {
    hide Balance, Settle, BaseAsset, QuoteAsset;
    SettleMoves(b, r, r.buyExchange, Quote(r.pair));
    SettleMoves(b, r, r.sellExchange, BaseAsset(r.pair));
  }

  // ----- fills -----

  /** A book that holds the quantity fills all of it, any other the factor's share of
      what it holds; the price is that of the walk, and the fee is charged on the fill. */
  lemma FillPays(side: Side, book: OrderBookSnapshot, quantity: real, feeRate: real, factor: real)
    requires PositiveSizes(if side == Buy then book.asks else book.bids) && quantity > 0.0
    ensures var levels := if side == Buy then book.asks else book.bids;
      var r, held := Fill(side, book, quantity, feeRate, factor), DepthWalk.Total(levels);
      && (r.status == if quantity <= held then Filled else PartiallyFilled)
      && (r.filledQuantity == if quantity <= held then quantity else held * factor)
      && (levels != [] ==> r.avgFillPrice * Min(quantity, held) == Cost(levels, quantity))
      && r.feePaid == r.filledQuantity * r.avgFillPrice * feeRate
  {
    var levels := if side == Buy then book.asks else book.bids;
    var eff := Effective(side, levels, quantity);
    hide DepthWalk.Total, Cost, Effective, Fill, PositiveSizes;
    EffectiveFills(side, levels, quantity);
    TotalCostIsCost(side, levels, quantity);
    FillIs(side, book, quantity, feeRate, factor);
    TotalNonNegative(levels);
    if quantity > DepthWalk.Total(levels) {
      SameTimes(eff.quantityFilled, DepthWalk.Total(levels), factor);
    }
  }

  lemma FillIs(side: Side, book: OrderBookSnapshot, quantity: real, feeRate: real, factor: real)
    ensures var eff := Effective(side, if side == Buy then book.asks else book.bids, quantity);
      var r := Fill(side, book, quantity, feeRate, factor);
      && r.status == (if eff.fullyFillable then Filled else PartiallyFilled)
      && r.filledQuantity == (if eff.fullyFillable then quantity else eff.quantityFilled * factor)
      && r.avgFillPrice == eff.avgPrice && r.feePaid == r.filledQuantity * r.avgFillPrice * feeRate
  {
    hide Effective;
  }

  lemma TotalCostIsCost(side: Side, levels: seq<PriceLevel>, quantity: real)
    requires quantity > 0.0
    ensures Effective(side, levels, quantity).totalCost == Cost(levels, quantity)
  {
    hide Remaining;
  }

  /** A fill is never negative and never more than a positive request. */
  lemma FillWithinRequest(side: Side, book: OrderBookSnapshot, quantity: real, feeRate: real, factor: real)
    requires PositiveSizes(if side == Buy then book.asks else book.bids) && 0.0 <= factor <= 1.0
    ensures var filled := Fill(side, book, quantity, feeRate, factor).filledQuantity;
      if quantity > 0.0 then 0.0 <= filled <= quantity else filled == 0.0
  {
    var levels := if side == Buy then book.asks else book.bids;
    hide Fill, Effective, PositiveSizes, Notional;
    FilledQuantity(side, book, quantity, feeRate, factor);
    EffectiveWithinRequest(side, levels, quantity);
    PartOf(Effective(side, levels, quantity).quantityFilled, factor);
  }

  lemma FilledQuantity(side: Side, book: OrderBookSnapshot, quantity: real, feeRate: real, factor: real)
    ensures var eff := Effective(side, if side == Buy then book.asks else book.bids, quantity);
      Fill(side, book, quantity, feeRate, factor).filledQuantity
        == if eff.fullyFillable then quantity else Notional(eff.quantityFilled, factor)
  {
    hide Effective;
  }

  lemma EffectiveWithinRequest(side: Side, levels: seq<PriceLevel>, quantity: real)
    requires PositiveSizes(levels)
    ensures var eff := Effective(side, levels, quantity);
      if quantity > 0.0 then 0.0 <= eff.quantityFilled <= quantity else eff.quantityFilled == 0.0 && !eff.fullyFillable
  {
    TotalNonNegative(levels);
    if quantity > 0.0 {
      hide Effective, Total;
      EffectiveFills(side, levels, quantity);
    }
  }

  lemma PartOf(x: real, factor: real)
    requires x >= 0.0 && 0.0 <= factor <= 1.0
    ensures 0.0 <= Notional(x, factor) <= x
  {
    FractionOf(x, factor, x);
  }

  // ----- the buyer -----

  /** On any books: the buyer pays the matched quantity at the average fill price,
      and the fee; so the quote balance stays above minus the fee exactly when
      it covered the former. */
  lemma BuyerPaysCostAndFee(b: Balances, o: ArbitrageOpportunity, inputs: Inputs)
    requires Accepts(b, o, inputs) && o.buyExchange != o.sellExchange && BaseAsset(o.pair) != Quote(o.pair)
    ensures var r := Executed(b, o, inputs);
      var before := Balance(b, o.buyExchange, Quote(o.pair));
      var after := Balance(Settle(b, r), o.buyExchange, Quote(o.pair));
      && after == before - CostOfMatched(r) - r.buyResult.feePaid
      && (after >= -r.buyResult.feePaid <==> CostOfMatched(r) <= before)
  {
    hide Executed, BaseAsset, Quote, Settle, Balance, Accepts, Matched;
    ExecutedRoute(b, o, inputs);
    SettledBalances(b, Executed(b, o, inputs));
  }

  /** The result of an accepted trade does not depend on the balances. */
  lemma AcceptedAlike(b: Balances, c: Balances, o: ArbitrageOpportunity, inputs: Inputs)
    requires Accepts(b, o, inputs) && Accepts(c, o, inputs)
    ensures Executed(b, o, inputs) == Executed(c, o, inputs)
  {
    hide Fill, Pnl, TakerFee;
  }

  /** What execute wants the buyer to hold. */
  function RequiredQuote(o: ArbitrageOpportunity): real {
    o.buyPrice * o.quantity
  }

  lemma AcceptedCovers(b: Balances, o: ArbitrageOpportunity, inputs: Inputs)
    requires Accepts(b, o, inputs)
    ensures Balance(b, o.buyExchange, Quote(o.pair)) >= RequiredQuote(o)
  {
    hide Quote;
  }

  /** The least balances that execute accepts. */
  function LeastBalances(o: ArbitrageOpportunity): Balances {
    map[o.buyExchange := map[Quote(o.pair) := RequiredQuote(o)],
        o.sellExchange := map[BaseAsset(o.pair) := o.quantity]]
  }

  lemma LeastIsAccepted(o: ArbitrageOpportunity, inputs: Inputs)
    requires o.buyExchange != o.sellExchange
    requires inputs.books(o.buyExchange, o.pair).Some? && inputs.books(o.sellExchange, o.pair).Some?
    ensures Accepts(LeastBalances(o), o, inputs)
    ensures Balance(LeastBalances(o), o.buyExchange, Quote(o.pair)) == RequiredQuote(o)
  {
    hide BaseAsset, Quote;
  }

  ghost predicate DipsByFeeAtMost(b: Balances, o: ArbitrageOpportunity, inputs: Inputs) {
    var r := Executed(b, o, inputs);
    Balance(Settle(b, r), o.buyExchange, Quote(o.pair)) >= -r.buyResult.feePaid
  }

  /** Every account that is accepted dips by the fee at most exactly when the
      fill costs no more than the advertised price times the quantity. */
  lemma DipsByFeeAtMostIff(o: ArbitrageOpportunity, inputs: Inputs)
    requires o.buyExchange != o.sellExchange && BaseAsset(o.pair) != Quote(o.pair)
    requires inputs.books(o.buyExchange, o.pair).Some? && inputs.books(o.sellExchange, o.pair).Some?
    ensures (forall b :: Accepts(b, o, inputs) ==> DipsByFeeAtMost(b, o, inputs))
      <==> CostOfMatched(Executed(LeastBalances(o), o, inputs)) <= RequiredQuote(o)
  {
    var least := LeastBalances(o);
    LeastIsAccepted(o, inputs);
    hide Executed, Settle, CostOfMatched, LeastBalances, BaseAsset, Quote, Accepts, Balance, RequiredQuote;
    BuyerPaysCostAndFee(least, o, inputs);
    forall b | Accepts(b, o, inputs)
      ensures Executed(b, o, inputs) == Executed(least, o, inputs)
      ensures Balance(b, o.buyExchange, Quote(o.pair)) >= RequiredQuote(o)
      ensures DipsByFeeAtMost(b, o, inputs)
        <==> CostOfMatched(Executed(b, o, inputs)) <= Balance(b, o.buyExchange, Quote(o.pair))
    {
      AcceptedAlike(b, least, o, inputs);
      AcceptedCovers(b, o, inputs);
      BuyerPaysCostAndFee(b, o, inputs);
    }
  }

  // ----- the buyer's book decides -----

  /** What can befall an opportunity on this buyer's book: any good book on the
      other side, any fees, any factors the draw allows. */
  ghost predicate PossibleOn(buy: OrderBookSnapshot, o: ArbitrageOpportunity, inputs: Inputs) {
    && inputs.books(o.buyExchange, o.pair) == Some(buy)
    && inputs.books(o.sellExchange, o.pair).Some? && GoodBids(inputs.books(o.sellExchange, o.pair).value.bids)
    && 0.5 <= inputs.buyFactor < 0.9 && 0.5 <= inputs.sellFactor < 0.9
  }

  /** The most the buyer's book can charge, or what a larger and larger factor tends to. */
  function WorstCost(asks: seq<PriceLevel>, quantity: real): real {
    if quantity <= Total(asks) then Cost(asks, quantity) else Notional(0.9, Cost(asks, quantity))
  }

  /** Whatever else happens, every account that is accepted dips by the fee at
      most, exactly when the buyer's book alone does not charge more than was
      advertised: for the quantity, or for nine tenths of what there is. */
  lemma BookDecidesDip(buy: OrderBookSnapshot, o: ArbitrageOpportunity)
    requires GoodAsks(buy.asks) && o.buyExchange != o.sellExchange && BaseAsset(o.pair) != Quote(o.pair)
    ensures (forall b, inputs :: PossibleOn(buy, o, inputs) && Accepts(b, o, inputs) ==> DipsByFeeAtMost(b, o, inputs))
      <==> WorstCost(buy.asks, o.quantity) <= RequiredQuote(o)
  {
    hide Accepts, DipsByFeeAtMost, WorstCost, RequiredQuote, BaseAsset, Quote;
    if WorstCost(buy.asks, o.quantity) <= RequiredQuote(o) {
      forall b, inputs | PossibleOn(buy, o, inputs) && Accepts(b, o, inputs) ensures DipsByFeeAtMost(b, o, inputs) {
        CostAtMostWorst(b, buy, o, inputs);
        AcceptedCovers(b, o, inputs);
        BuyerStaysAbove(b, o, inputs);
      }
    } else {
      var inputs := WorstInputs(buy, o);
      LeastIsAccepted(o, inputs);
      assert !DipsByFeeAtMost(LeastBalances(o), o, inputs);
    }
  }

  lemma BuyerStaysAbove(b: Balances, o: ArbitrageOpportunity, inputs: Inputs)
    requires Accepts(b, o, inputs) && o.buyExchange != o.sellExchange && BaseAsset(o.pair) != Quote(o.pair)
    ensures DipsByFeeAtMost(b, o, inputs)
      <==> CostOfMatched(Executed(b, o, inputs)) <= Balance(b, o.buyExchange, Quote(o.pair))
  {
    hide Executed, Settle, CostOfMatched, BaseAsset, Quote, Accepts, Balance;
    BuyerPaysCostAndFee(b, o, inputs);
  }

  /** What a whole buy fill costs, in terms of the walk over the asks. */
  lemma FillOfAsks(buy: OrderBookSnapshot, quantity: real, feeRate: real, factor: real)
    requires GoodAsks(buy.asks)
    ensures var r := Fill(Buy, buy, quantity, feeRate, factor);
      && r.avgFillPrice >= 0.0
      && Notional(r.filledQuantity, r.avgFillPrice)
         == if quantity <= Total(buy.asks) then Cost(buy.asks, quantity) else Notional(factor, Cost(buy.asks, quantity))
  {
    TotalNonNegative(buy.asks);
    var eff := Effective(Buy, buy.asks, quantity);
    EffectiveOfAsks(buy.asks, quantity);
    hide Effective, Total, Cost;
    if quantity > Total(buy.asks) {
      Associate(factor, eff.quantityFilled, eff.avgPrice);
    }
  }

  lemma EffectiveOfAsks(asks: seq<PriceLevel>, quantity: real)
    requires GoodAsks(asks)
    ensures var eff := Effective(Buy, asks, quantity);
      && eff.avgPrice >= 0.0 && (quantity > 0.0 ==> (eff.fullyFillable <==> quantity <= Total(asks)))
      && (quantity <= 0.0 ==> !eff.fullyFillable && eff.quantityFilled == 0.0 && Cost(asks, quantity) == 0.0)
      && Cost(asks, quantity) >= 0.0
      && Notional(if eff.fullyFillable then quantity else eff.quantityFilled, eff.avgPrice) == Cost(asks, quantity)
  {
    TotalNonNegative(asks);
    CostPositive(asks, quantity);
    if quantity > 0.0 {
      EffectiveFills(Buy, asks, quantity);
      if asks != [] {
        var filled := Min(quantity, Total(asks));
        AtLeastByCost(0.0, Cost(asks, quantity), filled);
      }
    }
  }

  lemma CostAtMostWorst(b: Balances, buy: OrderBookSnapshot, o: ArbitrageOpportunity, inputs: Inputs)
    requires GoodAsks(buy.asks) && PossibleOn(buy, o, inputs) && Accepts(b, o, inputs)
    ensures CostOfMatched(Executed(b, o, inputs)) <= WorstCost(buy.asks, o.quantity)
  {
    var sell, r := inputs.books(o.sellExchange, o.pair).value, Executed(b, o, inputs);
    var bf, sf := TakerFee(inputs.fees, o.buyExchange, o.pair), TakerFee(inputs.fees, o.sellExchange, o.pair);
    ExecutedFills(b, o, inputs);
    FillOfAsks(buy, o.quantity, bf, inputs.buyFactor);
    FillWithinRequest(Buy, buy, o.quantity, bf, inputs.buyFactor);
    FillWithinRequest(Sell, sell, o.quantity, sf, inputs.sellFactor);
    CostPositive(buy.asks, o.quantity);
    hide Fill, Executed, Accepts, GoodAsks, GoodBids, Total, Cost, TakerFee, Notional;
    NotionalMonotone(Matched(r.buyResult, r.sellResult), r.buyResult.filledQuantity, r.buyResult.avgFillPrice);
    NotionalMonotone(inputs.buyFactor, 0.9, Cost(buy.asks, o.quantity));
  }

  lemma NotionalMonotone(a: real, b: real, price: real)
    requires a <= b && price >= 0.0
    ensures Notional(a, price) <= Notional(b, price)
  {
    MulMonotone(price, a, b);
  }

  /** A book on the other side that takes the whole quantity. */
  function AmpleBids(quantity: real): seq<PriceLevel> {
    [PriceLevel(1.0, if quantity > 0.0 then quantity else 1.0)]
  }

  lemma AmpleFill(sell: OrderBookSnapshot, quantity: real, feeRate: real, factor: real)
    requires sell.bids == AmpleBids(quantity)
    ensures GoodBids(sell.bids)
    ensures Fill(Sell, sell, quantity, feeRate, factor).filledQuantity == if quantity > 0.0 then quantity else 0.0
  {
    FilledQuantity(Sell, sell, quantity, feeRate, factor);
    assert Total(sell.bids) == sell.bids[0].quantity;
    hide Fill, Total;
    if quantity > 0.0 {
      EffectiveFills(Sell, sell.bids, quantity);
    }
  }

  lemma FactorAbove(cost: real, bound: real) returns (f: real)
    requires cost >= 0.0 && 0.9 * cost > bound
    ensures 0.5 <= f < 0.9 && Notional(f, cost) > bound
  {
    if 0.5 * cost > bound {
      f := 0.5;
      assert Notional(f, cost) == 0.5 * cost;
    } else {
      var share := bound / cost;
      QuotientTimes(bound, cost);
      f := HalfWayToNine(cost, bound, share);
    }
  }

  lemma ShareAtLeastHalf(cost: real, bound: real, share: real)
    requires cost > 0.0 && share * cost == bound && 0.5 * cost <= bound
    ensures 0.5 <= share
  {
    var gap := 0.5 - share;
    Distribute(cost, gap, share);
    assert cost * gap == cost * 0.5 - cost * share <= 0.0;
    if gap > 0.0 {
      MulPositive(cost, gap);
    }
  }

  lemma HalfWayToNine(cost: real, bound: real, share: real) returns (f: real)
    requires cost > 0.0 && share * cost == bound && 0.5 * cost <= bound < 0.9 * cost
    ensures 0.5 <= f < 0.9 && Notional(f, cost) > bound
  {
    ShareAtLeastHalf(cost, bound, share);
    assert cost * share == bound;
    if share >= 0.9 {
      MulMonotone(cost, 0.9, share);
    }
    f := share / 2.0 + 0.45;
    Distribute(cost, share / 2.0, 0.45);
    assert cost * (share / 2.0) == bound / 2.0;
    assert Notional(f, cost) == bound / 2.0 + 0.45 * cost;
  }

  /** Factors and a book that make the least account dip by more than the fee. */
  lemma WorstInputs(buy: OrderBookSnapshot, o: ArbitrageOpportunity) returns (inputs: Inputs)
    requires GoodAsks(buy.asks) && o.buyExchange != o.sellExchange && BaseAsset(o.pair) != Quote(o.pair)
    requires WorstCost(buy.asks, o.quantity) > RequiredQuote(o)
    ensures PossibleOn(buy, o, inputs) && Accepts(LeastBalances(o), o, inputs)
    ensures !DipsByFeeAtMost(LeastBalances(o), o, inputs)
  {
    var required, cost := RequiredQuote(o), Cost(buy.asks, o.quantity);
    CostPositive(buy.asks, o.quantity);
    TotalNonNegative(buy.asks);
    var factor := 0.5;
    if o.quantity > Total(buy.asks) {
      factor := FactorAbove(cost, required);
    }
    var sell := OrderBookSnapshot(o.sellExchange, o.pair, AmpleBids(o.quantity), [], 0, 0);
    var books := (e: Exchange, p: string) => if e == o.buyExchange then Some(buy) else Some(sell);
    inputs := Inputs(books, map[], factor, 0.5);
    var least := LeastBalances(o);
    AmpleFill(sell, o.quantity, TakerFee(inputs.fees, o.sellExchange, o.pair), 0.5);
    LeastIsAccepted(o, inputs);
    CostOfWorst(least, buy, sell, o, inputs);
    BuyerStaysAbove(least, o, inputs);
  }

  lemma CostOfWorst(b: Balances, buy: OrderBookSnapshot, sell: OrderBookSnapshot, o: ArbitrageOpportunity,
                    inputs: Inputs)
    requires GoodAsks(buy.asks) && PossibleOn(buy, o, inputs) && Accepts(b, o, inputs)
    requires inputs.books(o.sellExchange, o.pair) == Some(sell) && sell.bids == AmpleBids(o.quantity)
    ensures CostOfMatched(Executed(b, o, inputs))
         == if o.quantity <= Total(buy.asks) then Cost(buy.asks, o.quantity)
            else Notional(inputs.buyFactor, Cost(buy.asks, o.quantity))
  {
    var r := Executed(b, o, inputs);
    var bf, sf := TakerFee(inputs.fees, o.buyExchange, o.pair), TakerFee(inputs.fees, o.sellExchange, o.pair);
    ExecutedFills(b, o, inputs);
    FillOfAsks(buy, o.quantity, bf, inputs.buyFactor);
    FillWithinRequest(Buy, buy, o.quantity, bf, inputs.buyFactor);
    AmpleFill(sell, o.quantity, sf, inputs.sellFactor);
    hide Fill, Executed, Accepts, GoodAsks, GoodBids, Total, Cost, TakerFee, Notional;
    assert Matched(r.buyResult, r.sellResult) == r.buyResult.filledQuantity;
  }

  /** A book that moves between detection and execution dips the buyer below any
      bound: nothing limits the fill price. */
  lemma MovedBookDipsBelow(pair: string, debt: real) returns (b: Balances, o: ArbitrageOpportunity, inputs: Inputs)
    requires debt >= 0.0 && BaseAsset(pair) != Quote(pair)
    ensures Accepts(b, o, inputs) && o.pair == pair && o.buyExchange != o.sellExchange && o.buyPrice > 0.0
    ensures var buy, sell := inputs.books(o.buyExchange, o.pair), inputs.books(o.sellExchange, o.pair);
      GoodAsks(buy.value.asks) && GoodBids(sell.value.bids)
    ensures var r := Executed(b, o, inputs);
      && r.buyResult.status == Filled && r.sellResult.status == Filled
      && Balance(Settle(b, r), o.buyExchange, Quote(o.pair)) + r.buyResult.feePaid < -debt
  {
    o := ArbitrageOpportunity(pair, BINANCE, OKX, 100.0, 101.0, 1.0, 100.0, 80.0);
    var price := 101.0 + debt;
    var asks, bids := [PriceLevel(price, 1.0)], [PriceLevel(101.0, 1.0)];
    inputs := Inputs((e: Exchange, p: string) => Some(OrderBookSnapshot(e, p, bids, asks, 0, 0)), map[], 0.5, 0.5);
    b := LeastBalances(o);
    hide BaseAsset, QuoteAsset, Quote, LeastBalances, Settle, Fill, Executed, Accepts, Balance, TakerFee;
    LeastIsAccepted(o, inputs);
    ExecutedFills(b, o, inputs);
    UnitFill(Buy, inputs.books(BINANCE, o.pair).value, price, TakerFee(inputs.fees, BINANCE, o.pair), 0.5);
    UnitFill(Sell, inputs.books(OKX, o.pair).value, 101.0, TakerFee(inputs.fees, OKX, o.pair), 0.5);
    BuyerPaysCostAndFee(b, o, inputs);
  }

  lemma ExecutedFills(b: Balances, o: ArbitrageOpportunity, inputs: Inputs)
    requires Accepts(b, o, inputs)
    ensures var r := Executed(b, o, inputs);
      && r.buyResult == Fill(Buy, inputs.books(o.buyExchange, o.pair).value, o.quantity,
                             TakerFee(inputs.fees, o.buyExchange, o.pair), inputs.buyFactor)
      && r.sellResult == Fill(Sell, inputs.books(o.sellExchange, o.pair).value, o.quantity,
                              TakerFee(inputs.fees, o.sellExchange, o.pair), inputs.sellFactor)
  {
    hide Fill, Pnl, TakerFee;
  }

  lemma UnitFill(side: Side, book: OrderBookSnapshot, price: real, feeRate: real, factor: real)
    requires (if side == Buy then book.asks else book.bids) == [PriceLevel(price, 1.0)]
    ensures Fill(side, book, 1.0, feeRate, factor) == OrderResult(Filled, 1.0, price, price * feeRate)
  {
    var levels := [PriceLevel(price, 1.0)];
    assert Remaining(levels, 1.0) == 0.0 && Cost(levels, 1.0) == price;
  }

  // ----- the seller -----

  /** On any books the seller delivers no more than the account holds: the base
      balance does not become negative. */
  lemma SellerNeverShort(b: Balances, o: ArbitrageOpportunity, inputs: Inputs)
    requires Accepts(b, o, inputs) && BaseAsset(o.pair) != Quote(o.pair)
    requires 0.0 <= inputs.buyFactor <= 1.0 && 0.0 <= inputs.sellFactor <= 1.0
    requires PositiveSizes(inputs.books(o.buyExchange, o.pair).value.asks)
    requires PositiveSizes(inputs.books(o.sellExchange, o.pair).value.bids)
    ensures var before, after := Balance(b, o.sellExchange, BaseAsset(o.pair)),
                                 Balance(Settle(b, Executed(b, o, inputs)), o.sellExchange, BaseAsset(o.pair));
      after >= Min(0.0, before)
  {
    var buy, sell := inputs.books(o.buyExchange, o.pair).value, inputs.books(o.sellExchange, o.pair).value;
    FillWithinRequest(Buy, buy, o.quantity, TakerFee(inputs.fees, o.buyExchange, o.pair), inputs.buyFactor);
    FillWithinRequest(Sell, sell, o.quantity, TakerFee(inputs.fees, o.sellExchange, o.pair), inputs.sellFactor);
    hide Fill, BaseAsset, QuoteAsset, Settle, PositiveSizes, TakerFee, Pnl;
    SettledBalances(b, Executed(b, o, inputs));
  }
}
