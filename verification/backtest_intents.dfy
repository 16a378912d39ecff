/** What a backtest sets out to trade on the books it is served, and what its
    orders then earn (src/backtest/backtest_engine.cpp). */
module BacktestIntents {
  import opened Types
  import opened RealFacts
  import opened DepthWalk
  import opened DepthAnalyzer
  import opened PriceLevels
  import opened Assets
  import opened LimitOrders
  import opened SimulatedExchanges
  import opened BacktestAccounts
  import ArbitrageProfit
  import PaperExecutors

  const DEPTH: nat := 20

  datatype Config = Config(pairs: seq<string>, minNetBps: real, minTradeUsd: real, initialBalances: map<string, real>)

  /** What the aggregator serves of one book. */
  datatype TopBook = TopBook(exchange: Exchange, bids: seq<PriceLevel>, asks: seq<PriceLevel>)

  type Books = map<(Exchange, string), TopBook>

  ghost predicate GoodTop(b: TopBook) {
    GoodSide(true, b.bids) && GoodSide(false, b.asks)
  }

  ghost predicate GoodBooks(books: Books) {
    forall k :: k in books ==> GoodTop(books[k]) && books[k].exchange == k.0
  }

  /** Good books of distinct exchanges of the run. */
  ghost predicate Tradable(exchanges: set<Exchange>, books: seq<TopBook>) {
    && (forall i :: 0 <= i < |books| ==> GoodTop(books[i]) && books[i].exchange in exchanges)
    && forall i, j :: 0 <= i < j < |books| ==> books[i].exchange != books[j].exchange
  }

  function BookOf(books: Books, e: Exchange, pair: string): seq<TopBook> {
    if (e, pair) in books then [books[(e, pair)]] else []
  }

  /** get_pair_snapshots: the books of a pair in exchange order. */
  function PairBooks(books: Books, pair: string): seq<TopBook> {
    BookOf(books, BINANCE, pair) + BookOf(books, OKX, pair) + BookOf(books, BYBIT, pair)
  }

  lemma TwoBooks(exchanges: set<Exchange>, books: seq<TopBook>, i: nat, j: nat)
    requires Tradable(exchanges, books) && i < |books| && j < |books|
    ensures books[i].exchange in exchanges && books[j].exchange in exchanges
    ensures i != j ==> books[i].exchange != books[j].exchange
  {
    hide GoodTop;
  }

  lemma PairBooksTradable(exchanges: set<Exchange>, books: Books, pair: string)
    requires GoodBooks(books) && forall k :: k in books ==> k.0 in exchanges
    ensures Tradable(exchanges, PairBooks(books, pair))
  {
    hide GoodTop;
  }

  // ----- what the engine sets out to trade -----

  /** A trade record without its results. */
  datatype Intent = Intent(
    pair: string, buyExchange: Exchange, sellExchange: Exchange, buyPrice: real, sellPrice: real,
    quantity: real, grossSpreadBps: real, netSpreadBps: real)

  function IntentOf(p: TradeRecord): Intent {
    Intent(p.pair, p.buyExchange, p.sellExchange, p.buyPrice, p.sellPrice, p.quantity, p.grossSpreadBps, p.netSpreadBps)
  }

  function Intents(ps: seq<TradeRecord>): seq<Intent> {
    seq(|ps|, i requires 0 <= i < |ps| => IntentOf(ps[i]))
  }

  function FeeRate(fees: map<Exchange, real>, buy: Exchange, sell: Exchange): real
    requires buy in fees && sell in fees
  {
    fees[buy] + fees[sell]
  }

  function LotSize(usd: real, price: real): real
    requires price != 0.0
  {
    usd / price
  }

  /** The spread test. Over a zero buy price the quotient is infinite with the
      sign of the sell price, or not a number, which the test lets pass. */
  predicate SpreadSuffices(c: Config, feeRate: real, buyPrice: real, sellPrice: real) {
    if buyPrice == 0.0 then sellPrice >= 0.0
    else SpreadBps(buyPrice, sellPrice) - feeRate * 10000.0 >= c.minNetBps
  }

  /** Buying on one book and selling on the other crosses, and the configured
      notional can be traded in full at the minimum net spread. At a zero best
      ask the quantity is infinite or not a number, which no walk fills. */
  predicate Wanted(c: Config, feeRate: real, buy: TopBook, sell: TopBook) {
    && buy.asks != [] && sell.bids != [] && buy.asks[0].price < sell.bids[0].price && buy.asks[0].price != 0.0
    && var quantity := LotSize(c.minTradeUsd, buy.asks[0].price);
    var effBuy, effSell := Effective(Buy, buy.asks, quantity), Effective(Sell, sell.bids, quantity);
    effBuy.fullyFillable && effSell.fullyFillable && SpreadSuffices(c, feeRate, effBuy.avgPrice, effSell.avgPrice)
  }

  /** On books with positive prices that is the depth analyzer's feasibility of
      the configured notional. */
  lemma WantedIsFeasible(c: Config, feeRate: real, buy: TopBook, sell: TopBook)
    requires GoodTop(buy) && GoodTop(sell) && PositivePrices(buy.asks)
    ensures Wanted(c, feeRate, buy, sell)
      <==> (buy.asks != [] && sell.bids != [] && buy.asks[0].price < sell.bids[0].price
            && Feasible(buy.asks, sell.bids, c.minNetBps, feeRate, LotSize(c.minTradeUsd, buy.asks[0].price)))
  {
    hide Effective, LotSize, SpreadBps;
    if buy.asks != [] {
      BuyPriceIsPositive(buy, LotSize(c.minTradeUsd, buy.asks[0].price));
    }
  }

  /** A wanted trade without its results. A spread over a zero buy price is recorded as 0. */
  function IntentFor(c: Config, feeRate: real, pair: string, buy: TopBook, sell: TopBook): Intent
    requires Wanted(c, feeRate, buy, sell)
  {
    var quantity := LotSize(c.minTradeUsd, buy.asks[0].price);
    var buyPrice, sellPrice :=
      Effective(Buy, buy.asks, quantity).avgPrice, Effective(Sell, sell.bids, quantity).avgPrice;
    var grossBps := if buyPrice == 0.0 then 0.0 else SpreadBps(buyPrice, sellPrice);
    Intent(pair, buy.exchange, sell.exchange, buyPrice, sellPrice, quantity, grossBps, grossBps - feeRate * 10000.0)
  }

  /** The traded quantity is worth the configured notional at the best ask. */
  lemma IntentIsWorthNotional(c: Config, feeRate: real, pair: string, buy: TopBook, sell: TopBook)
    requires Wanted(c, feeRate, buy, sell)
    ensures var t := IntentFor(c, feeRate, pair, buy, sell);
      && t.quantity * buy.asks[0].price == c.minTradeUsd
      && t.buyPrice == Effective(Buy, buy.asks, t.quantity).avgPrice
      && t.sellPrice == Effective(Sell, sell.bids, t.quantity).avgPrice
      && t.netSpreadBps == t.grossSpreadBps - feeRate * 10000.0
      && (t.buyPrice != 0.0 ==> t.grossSpreadBps == SpreadBps(t.buyPrice, t.sellPrice) && t.netSpreadBps >= c.minNetBps)
  {
    hide Effective, SpreadBps;
    QuotientTimes(c.minTradeUsd, buy.asks[0].price);
  }

  ghost function FeesOf(m: Market): map<Exchange, real> {
    map e | e in m :: m[e].takerFee
  }

  ghost predicate Charged(books: seq<TopBook>, fees: map<Exchange, real>) {
    forall i :: 0 <= i < |books| ==> books[i].exchange in fees
  }

  /** The intents of one ordered pair of books. */
  ghost function BookIntents(c: Config, fees: map<Exchange, real>, pair: string, buy: TopBook,
                             sell: TopBook): (r: seq<Intent>)
    requires buy.exchange in fees && sell.exchange in fees
  {
    var feeRate := FeeRate(fees, buy.exchange, sell.exchange);
    if Wanted(c, feeRate, buy, sell) then [IntentFor(c, feeRate, pair, buy, sell)] else []
  }

  /** The intents that buy on book i and sell on one of the first n others. */
  ghost function RowIntents(c: Config, fees: map<Exchange, real>, pair: string, books: seq<TopBook>, i: nat,
                            n: nat): seq<Intent>
    requires i < |books| && n <= |books| && Charged(books, fees)
  {
    if n == 0 then []
    else
      var before := RowIntents(c, fees, pair, books, i, n - 1);
      if i == n - 1 then before else before + BookIntents(c, fees, pair, books[i], books[n - 1])
  }

  /** The intents that buy on one of the first m books. */
  ghost function PairIntents(c: Config, fees: map<Exchange, real>, pair: string, books: seq<TopBook>,
                             m: nat): seq<Intent>
    requires m <= |books| && Charged(books, fees)
  {
    if m == 0 then []
    else PairIntents(c, fees, pair, books, m - 1) + RowIntents(c, fees, pair, books, m - 1, |books|)
  }

  // ----- how the legs fill -----

  /** A fill of the whole quantity at one price, with its fee. */
  function FullFill(quantity: real, price: real, takerFee: real): OrderResult {
    OrderResult(Filled, quantity, price, quantity * price * takerFee)
  }

  /** On a book that holds the quantity an order fills exactly when the account
      covers it and its limit admits the deepest level touched; then it fills at
      the price the depth analyzer announces. */
  lemma OrderFillsIff(b: map<string, real>, takerFee: real, levels: seq<PriceLevel>, req: OrderRequest)
    requires PositiveSizes(levels) && Ordered(req.side, levels) && 0.0 < req.quantity <= DepthWalk.Total(levels)
    ensures var r := Outcome(b, takerFee, levels, req);
      var price := Effective(req.side, levels, req.quantity).avgPrice;
      && (r.status == Filled <==> Available(b, req) >= Needed(req)
                                  && DeepestAdmitted(req.side, levels, req.price, req.quantity))
      && (r.status == Filled ==> r == FullFill(req.quantity, price, takerFee))
  {
    assert levels != [];
    hide Remaining, Cost, LimitLeft, LimitCost, Available;
    hide Needed, DeepestAdmitted, DepthWalk.Total, Effective, FillReport, FullFill;
    RemainingIsShortfall(levels, req.quantity);
    LimitWalkIsWalk(req.side, levels, req.price, req.quantity);
    var cost := LimitCost(req.side, levels, req.price, req.quantity);
    if DeepestAdmitted(req.side, levels, req.price, req.quantity) {
      AgreesIffDeepestAdmitted(req.side, levels, req.price, req.quantity);
      FullReport(req.side, levels, req.quantity, takerFee);
    } else {
      ReachableFallsShort(req.side, levels, req.price, req.quantity);
      ShortReport(req.quantity - LimitLeft(req.side, levels, req.price, req.quantity), cost, req.quantity, takerFee);
    }
  }

  lemma FullReport(side: Side, levels: seq<PriceLevel>, quantity: real, takerFee: real)
    requires levels != [] && quantity > 0.0 && Remaining(levels, quantity) == 0.0
    ensures var price := Effective(side, levels, quantity).avgPrice;
      FillReport(quantity, Cost(levels, quantity), quantity, takerFee)
        == FullFill(quantity, price, takerFee)
  {
    hide Remaining, Cost;
    var cost := Cost(levels, quantity);
    QuotientTimes(cost, quantity);
    SameTimes(quantity * (cost / quantity), cost, takerFee);
  }

  lemma ShortReport(filled: real, cost: real, quantity: real, takerFee: real)
    requires filled < quantity
    ensures FillReport(filled, cost, quantity, takerFee).status != Filled
  {
  }

  /** Filled in full at the advertised prices, for the margin's share of the
      notional, whose sign is that of the profit. */
  ghost predicate EarnsMargin(p: TradeRecord, bf: real, sf: real) {
    var margin := ArbitrageProfit.Margin(p.netSpreadBps / 10000.0, bf, sf);
    && p.buyResult == FullFill(p.quantity, p.buyPrice, bf) && p.sellResult == FullFill(p.quantity, p.sellPrice, sf)
    && p.realizedPnl == p.quantity * p.buyPrice * margin && (p.realizedPnl > 0.0 <==> margin > 0.0)
  }

  lemma FullFillsEarnMargin(c: Config, bf: real, sf: real, pair: string, buy: TopBook, sell: TopBook, p: TradeRecord)
    requires GoodTop(buy) && PositivePrices(buy.asks) && Wanted(c, bf + sf, buy, sell)
    requires IntentOf(p) == IntentFor(c, bf + sf, pair, buy, sell) && WellPlaced(p)
    requires p.buyResult == FullFill(p.quantity, p.buyPrice, bf)
    requires p.sellResult == FullFill(p.quantity, p.sellPrice, sf)
    ensures EarnsMargin(p, bf, sf)
  {
    hide Effective, SpreadBps, LotSize, ArbitrageProfit.Margin, GoodTop;
    BuyPriceIsPositive(buy, p.quantity);
    ArbitrageProfit.PnlOfFullFills(p.quantity, p.buyPrice, p.sellPrice, p.netSpreadBps, bf, sf);
    PnlsAgree(p.buyResult, p.sellResult, p.quantity);
  }

  lemma PnlsAgree(buy: OrderResult, sell: OrderResult, quantity: real)
    requires buy.filledQuantity == sell.filledQuantity == quantity
    ensures PnlOfLegs(buy, sell) == PaperExecutors.Pnl(buy, sell)
  {
    Distribute(quantity, sell.avgFillPrice, -buy.avgFillPrice);
  }

  /** Over positive prices a fully fillable quantity has a positive average price. */
  lemma BuyPriceIsPositive(buy: TopBook, quantity: real)
    requires GoodTop(buy) && PositivePrices(buy.asks)
    ensures Effective(Buy, buy.asks, quantity).fullyFillable ==>
      quantity > 0.0 && Effective(Buy, buy.asks, quantity).avgPrice > 0.0
  {
    if quantity > 0.0 {
      EffectiveFills(Buy, buy.asks, quantity);
      if quantity <= DepthWalk.Total(buy.asks) {
        EffectiveIsVwap(Buy, buy.asks, quantity);
      }
    }
  }

  lemma RowStep(c: Config, fees: map<Exchange, real>, pair: string, books: seq<TopBook>, i: nat, j: nat)
    requires Charged(books, fees) && i < |books| && j < |books|
    ensures RowIntents(c, fees, pair, books, i, j + 1) == RowIntents(c, fees, pair, books, i, j)
      + if i == j then [] else BookIntents(c, fees, pair, books[i], books[j])
  {
    hide BookIntents;
  }

  lemma RowStart(c: Config, fees: map<Exchange, real>, pair: string, books: seq<TopBook>, i: nat)
    requires Charged(books, fees) && i < |books|
    ensures RowIntents(c, fees, pair, books, i, 0) == []
  {
  }

  lemma IntentsConcat(a: seq<TradeRecord>, b: seq<TradeRecord>)
    ensures Intents(a + b) == Intents(a) + Intents(b)
  {
  }

  lemma FewBooks(c: Config, fees: map<Exchange, real>, pair: string, books: seq<TopBook>)
    requires |books| < 2 && Charged(books, fees)
    ensures PairIntents(c, fees, pair, books, |books|) == []
  {
    hide BookIntents;
    if |books| == 1 {
      assert RowIntents(c, fees, pair, books, 0, 0) == [];
      assert PairIntents(c, fees, pair, books, 0) == [];
    }
  }

  lemma TradableIsCharged(m: Market, books: seq<TopBook>)
    requires Tradable(m.Keys, books)
    ensures Charged(books, FeesOf(m))
  {
  }
}
