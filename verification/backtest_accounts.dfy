/** The accounts of a backtest run as values: what its placements do to the
    totals of the exchanges (src/backtest/backtest_engine.cpp). */
module BacktestAccounts {
  import opened Types
  import opened RealFacts
  import opened DepthWalk
  import opened Assets
  import opened Ledgers
  import opened SimulatedExchanges
  import opened BacktestReports

  /** How a placement changes the total of an asset over all exchanges. */
  function Effect(p: TradeRecord, asset: string): real {
    (if asset == BaseAsset(p.pair) then Goods(Buy, p.buyResult) + Goods(Sell, p.sellResult) else 0.0)
    + (if asset == Quote(p.pair) then Cash(Buy, p.buyResult) + Cash(Sell, p.sellResult) else 0.0)
  }

  ghost function SumEffects(ps: seq<TradeRecord>, asset: string): real {
    if ps == [] then 0.0 else SumEffects(ps[..|ps| - 1], asset) + Effect(ps[|ps| - 1], asset)
  }

  /** Every asset's total differs by the effects of the placements. */
  ghost predicate Accounts(after: Balances, before: Balances, ps: seq<TradeRecord>) {
    forall asset :: AssetTotal(after, asset) == AssetTotal(before, asset) + SumEffects(ps, asset)
  }

  predicate BothFilled(p: TradeRecord) {
    p.buyResult.status == Filled && p.sellResult.status == Filled
  }

  /** The placements the engine keeps as trades. */
  function Recorded(ps: seq<TradeRecord>): seq<TradeRecord> {
    if ps == [] then []
    else
      var before, p := Recorded(ps[..|ps| - 1]), ps[|ps| - 1];
      if BothFilled(p) then before + [p] else before
  }

  /** The placements it forgets: rejected, one-legged or partly filled. */
  ghost function Unrecorded(ps: seq<TradeRecord>): seq<TradeRecord> {
    if ps == [] then []
    else
      var before, p := Unrecorded(ps[..|ps| - 1]), ps[|ps| - 1];
      if BothFilled(p) then before else before + [p]
  }

  function PnlOfLegs(buy: OrderResult, sell: OrderResult): real {
    (sell.avgFillPrice - buy.avgFillPrice) * Min(buy.filledQuantity, sell.filledQuantity) - buy.feePaid - sell.feePaid
  }

  /** What every result of an order shows. */
  ghost predicate SoundResult(side: Side, r: OrderResult, quantity: real) {
    && r.filledQuantity >= 0.0
    && (r.status == Filled ==> r.filledQuantity == quantity)
    && (r.filledQuantity == 0.0 ==> Cash(side, r) == 0.0)
  }

  ghost predicate WellPlaced(p: TradeRecord) {
    && p.realizedPnl == PnlOfLegs(p.buyResult, p.sellResult) && p.buyExchange != p.sellExchange
    && SoundResult(Buy, p.buyResult, p.quantity) && SoundResult(Sell, p.sellResult, p.quantity)
  }

  ghost predicate AllWellPlaced(ps: seq<TradeRecord>) {
    forall i :: 0 <= i < |ps| ==> WellPlaced(ps[i])
  }

  /** A recorded trade earns its two cash flows and alone conserves the goods. */
  lemma RecordedTradeBalances(p: TradeRecord)
    requires WellPlaced(p) && BothFilled(p)
    ensures p.realizedPnl == Cash(Buy, p.buyResult) + Cash(Sell, p.sellResult)
    ensures Goods(Buy, p.buyResult) + Goods(Sell, p.sellResult) == 0.0
  {
    Distribute(p.quantity, p.sellResult.avgFillPrice, -p.buyResult.avgFillPrice);
  }

  ghost function SumCash(ps: seq<TradeRecord>): real {
    if ps == [] then 0.0
    else SumCash(ps[..|ps| - 1]) + (Cash(Buy, ps[|ps| - 1].buyResult) + Cash(Sell, ps[|ps| - 1].sellResult))
  }

  ghost function SumGoods(ps: seq<TradeRecord>, base: string): real {
    if ps == [] then 0.0
    else
      var p := ps[|ps| - 1];
      SumGoods(ps[..|ps| - 1], base)
        + if BaseAsset(p.pair) == base then Goods(Buy, p.buyResult) + Goods(Sell, p.sellResult) else 0.0
  }

  /** All pairs are quoted in one asset that is no pair's base. */
  ghost predicate OneQuote(ps: seq<TradeRecord>, quote: string) {
    forall i :: 0 <= i < |ps| ==> Quote(ps[i].pair) == quote && BaseAsset(ps[i].pair) != quote
  }

  lemma EffectOnAssets(p: TradeRecord, quote: string, base: string)
    requires Quote(p.pair) == quote && BaseAsset(p.pair) != quote && base != quote
    ensures Effect(p, quote) == Cash(Buy, p.buyResult) + Cash(Sell, p.sellResult)
    ensures Effect(p, base)
         == if BaseAsset(p.pair) == base then Goods(Buy, p.buyResult) + Goods(Sell, p.sellResult) else 0.0
  {
    hide Cash, Goods, BaseAsset, QuoteAsset;
  }

  lemma {:induction false} EquityOfPrefix(ps: seq<TradeRecord>, qs: seq<TradeRecord>, n: nat)
    requires n <= |ps| <= |qs| && ps[..n] == qs[..n]
    ensures Equity(ps, n) == Equity(qs, n)
  {
    if n > 0 {
      assert ps[..n - 1] == ps[..n][..n - 1] == qs[..n - 1];
      assert ps[n - 1] == ps[..n][n - 1] == qs[n - 1];
      EquityOfPrefix(ps, qs, n - 1);
    }
  }

  lemma SumsAppend(ps: seq<TradeRecord>, p: TradeRecord, base: string)
    ensures Equity(ps + [p], |ps| + 1) == Equity(ps, |ps|) + p.realizedPnl
    ensures SumCash(ps + [p]) == SumCash(ps) + (Cash(Buy, p.buyResult) + Cash(Sell, p.sellResult))
    ensures SumGoods(ps + [p], base) == SumGoods(ps, base)
      + if BaseAsset(p.pair) == base then Goods(Buy, p.buyResult) + Goods(Sell, p.sellResult) else 0.0
  {
    hide Cash, Goods, BaseAsset;
    EquityOfPrefix(ps, ps + [p], |ps|);
    assert (ps + [p])[..|ps|] == ps;
  }

  /** In the quote asset the effects are the profits of the recorded trades
      and the cash of the others; in any other asset only unrecorded
      placements have an effect. */
  lemma {:induction false} EffectsSplit(ps: seq<TradeRecord>, quote: string, base: string)
    requires AllWellPlaced(ps) && OneQuote(ps, quote) && base != quote
    ensures SumEffects(ps, quote) == Equity(Recorded(ps), |Recorded(ps)|) + SumCash(Unrecorded(ps))
    ensures SumEffects(ps, base) == SumGoods(Unrecorded(ps), base)
  {
    if ps != [] {
      hide Cash, Goods, BaseAsset, Quote, PnlOfLegs, Effect, WellPlaced, BothFilled, Equity, SumCash, SumGoods;
      var before, p := ps[..|ps| - 1], ps[|ps| - 1];
      EffectsSplit(before, quote, base);
      EffectOnAssets(p, quote, base);
      if BothFilled(p) {
        RecordedTradeBalances(p);
        SumsAppend(Recorded(before), p, base);
      } else {
        SumsAppend(Unrecorded(before), p, base);
      }
    }
  }

  lemma {:induction false} RecordedConcat(a: seq<TradeRecord>, b: seq<TradeRecord>)
    ensures Recorded(a + b) == Recorded(a) + Recorded(b)
    decreases |b|
  {
    if b == [] {
      assert a + b == a;
    } else {
      assert (a + b)[..|a + b| - 1] == a + b[..|b| - 1];
      RecordedConcat(a, b[..|b| - 1]);
    }
  }

  // ----- the placements of a run -----

  /** One exchange as the orders see it, apart from the balances. */
  datatype Venue = Venue(takerFee: real, snapshots: map<string, seq<HistoricalSnapshot>>, position: map<string, nat>)

  type Market = map<Exchange, Venue>

  function Quotes(v: Venue, side: Side, pair: string): seq<PriceLevel> {
    if pair !in v.snapshots || pair !in v.position || v.position[pair] >= |v.snapshots[pair]| then []
    else if side == Buy then v.snapshots[pair][v.position[pair]].asks
    else v.snapshots[pair][v.position[pair]].bids
  }

  function AccountOf(b: Balances, e: Exchange): map<string, real> {
    if e in b then b[e] else map[]
  }

  /** The limit order of one leg: within 0.1 percent of the advertised price. */
  function Leg(side: Side, p: TradeRecord): OrderRequest {
    if side == Buy then OrderRequest(p.buyExchange, p.pair, Buy, p.buyPrice * 1.001, p.quantity)
    else OrderRequest(p.sellExchange, p.pair, Sell, p.sellPrice * 0.999, p.quantity)
  }

  /** The results of the placement are those of its two orders on these accounts. */
  ghost predicate PlacedOn(m: Market, b: Balances, p: TradeRecord) {
    && p.buyExchange in m && p.sellExchange in m && p.buyExchange != p.sellExchange
    && p.buyResult == Outcome(AccountOf(b, p.buyExchange), m[p.buyExchange].takerFee,
                              Quotes(m[p.buyExchange], Buy, p.pair), Leg(Buy, p))
    && p.sellResult == Outcome(AccountOf(b, p.sellExchange), m[p.sellExchange].takerFee,
                               Quotes(m[p.sellExchange], Sell, p.pair), Leg(Sell, p))
    && p.realizedPnl == PnlOfLegs(p.buyResult, p.sellResult)
  }

  /** The accounts after a placement, and after several. */
  function Settled(b: Balances, p: TradeRecord): Balances {
    b[p.buyExchange := AfterOrder(AccountOf(b, p.buyExchange), Leg(Buy, p), p.buyResult)]
     [p.sellExchange := AfterOrder(AccountOf(b, p.sellExchange), Leg(Sell, p), p.sellResult)]
  }

  ghost function SettledAll(b: Balances, ps: seq<TradeRecord>): Balances {
    if ps == [] then b else Settled(SettledAll(b, ps[..|ps| - 1]), ps[|ps| - 1])
  }

  /** Each placement was made on the accounts the earlier ones left. */
  ghost predicate AllPlacedOn(m: Market, b: Balances, ps: seq<TradeRecord>) {
    ps == [] || (AllPlacedOn(m, b, ps[..|ps| - 1]) && PlacedOn(m, SettledAll(b, ps[..|ps| - 1]), ps[|ps| - 1]))
  }

  lemma {:induction false} SettledConcat(b: Balances, ps: seq<TradeRecord>, qs: seq<TradeRecord>)
    ensures SettledAll(b, ps + qs) == SettledAll(SettledAll(b, ps), qs)
    decreases |qs|
  {
    hide Settled;
    if qs == [] {
      assert ps + qs == ps;
    } else {
      assert (ps + qs)[..|ps + qs| - 1] == ps + qs[..|qs| - 1];
      SettledConcat(b, ps, qs[..|qs| - 1]);
    }
  }

  lemma {:induction false} PlacedConcat(m: Market, b: Balances, ps: seq<TradeRecord>, qs: seq<TradeRecord>)
    requires AllPlacedOn(m, b, ps) && AllPlacedOn(m, SettledAll(b, ps), qs)
    ensures AllPlacedOn(m, b, ps + qs)
    decreases |qs|
  {
    hide PlacedOn, SettledAll;
    if qs == [] {
      assert ps + qs == ps;
    } else {
      assert (ps + qs)[..|ps + qs| - 1] == ps + qs[..|qs| - 1];
      PlacedConcat(m, b, ps, qs[..|qs| - 1]);
      SettledConcat(b, ps, qs[..|qs| - 1]);
    }
  }

  lemma PlacedIsWellPlaced(m: Market, b: Balances, p: TradeRecord)
    requires PlacedOn(m, b, p)
    ensures WellPlaced(p)
  {
    hide Outcome, PnlOfLegs, Cash;
    OutcomeShape(AccountOf(b, p.buyExchange), m[p.buyExchange].takerFee, Quotes(m[p.buyExchange], Buy, p.pair),
                 Leg(Buy, p));
    OutcomeShape(AccountOf(b, p.sellExchange), m[p.sellExchange].takerFee, Quotes(m[p.sellExchange], Sell, p.pair),
                 Leg(Sell, p));
  }

  lemma {:induction false} AllPlacedAreWellPlaced(m: Market, b: Balances, ps: seq<TradeRecord>)
    requires AllPlacedOn(m, b, ps)
    ensures AllWellPlaced(ps)
  {
    hide PlacedOn, WellPlaced;
    if ps != [] {
      AllPlacedAreWellPlaced(m, b, ps[..|ps| - 1]);
      PlacedIsWellPlaced(m, SettledAll(b, ps[..|ps| - 1]), ps[|ps| - 1]);
    }
  }

  lemma OneAccountChanged(b: Balances, e: Exchange, balances: map<string, real>, asset: string)
    ensures AssetTotal(b[e := balances], asset)
         == AssetTotal(b, asset) - Amount(AccountOf(b, e), asset) + Amount(balances, asset)
  {
    forall x: Exchange
      ensures Balance(b[e := balances], x, asset) == if x == e then Amount(balances, asset) else Balance(b, x, asset) {
    }
  }

  lemma ResultMoves(b: map<string, real>, req: OrderRequest, r: OrderResult, asset: string)
    requires SoundResult(req.side, r, req.quantity)
    ensures Amount(AfterOrder(b, req, r), asset) == Amount(b, asset)
      + (if asset == BaseAsset(req.pair) then Goods(req.side, r) else 0.0)
      + (if asset == Quote(req.pair) then Cash(req.side, r) else 0.0)
  {
    hide BaseAsset, QuoteAsset, Cash;
  }

  lemma SettledHasEffect(b: Balances, p: TradeRecord, asset: string)
    requires WellPlaced(p)
    ensures AssetTotal(Settled(b, p), asset) == AssetTotal(b, asset) + Effect(p, asset)
  {
    hide AssetTotal, AfterOrder, BaseAsset, QuoteAsset, Cash, Goods, Amount, SoundResult, PnlOfLegs;
    var bought := AfterOrder(AccountOf(b, p.buyExchange), Leg(Buy, p), p.buyResult);
    var sold := AfterOrder(AccountOf(b, p.sellExchange), Leg(Sell, p), p.sellResult);
    OneAccountChanged(b, p.buyExchange, bought, asset);
    OneAccountChanged(b[p.buyExchange := bought], p.sellExchange, sold, asset);
    ResultMoves(AccountOf(b, p.buyExchange), Leg(Buy, p), p.buyResult, asset);
    ResultMoves(AccountOf(b, p.sellExchange), Leg(Sell, p), p.sellResult, asset);
  }

  lemma {:induction false} SettledAccounts(b: Balances, ps: seq<TradeRecord>)
    requires AllWellPlaced(ps)
    ensures Accounts(SettledAll(b, ps), b, ps)
  {
    hide AssetTotal, Settled, Effect, WellPlaced;
    if ps != [] {
      var before := ps[..|ps| - 1];
      SettledAccounts(b, before);
      forall asset ensures AssetTotal(SettledAll(b, ps), asset) == AssetTotal(b, asset) + SumEffects(ps, asset) {
        SettledHasEffect(SettledAll(b, before), ps[|ps| - 1], asset);
      }
    }
  }

  /** The ledger identity: the quote total changes by the profits of the
      recorded trades and the cash of the unrecorded placements, any other
      total by the goods of the unrecorded placements alone. */
  lemma LedgerIdentity(b: Balances, ps: seq<TradeRecord>, quote: string, base: string)
    requires AllWellPlaced(ps) && OneQuote(ps, quote) && base != quote
    ensures AssetTotal(SettledAll(b, ps), quote) - AssetTotal(b, quote)
         == Equity(Recorded(ps), |Recorded(ps)|) + SumCash(Unrecorded(ps))
    ensures AssetTotal(SettledAll(b, ps), base) - AssetTotal(b, base) == SumGoods(Unrecorded(ps), base)
  {
    hide AssetTotal, SumEffects, SettledAll;
    SettledAccounts(b, ps);
    EffectsSplit(ps, quote, base);
  }
}
