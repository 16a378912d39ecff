/** The paper-trading ledger (src/execution/paper_executor.cpp). Calls are
    serialised; the aggregator, the fee table and the random partial-fill
    factors are inputs of each call. */
module PaperExecutors {
  import opened Types
  import opened RealFacts
  import opened DepthAnalyzer
  import opened Fees
  import opened Assets
  import opened Ledgers

  const DEFAULT_QUOTE := "USDT"

  function Quote(pair: string): string {
    QuoteAsset(pair, DEFAULT_QUOTE)
  }

  lemma DashlessQuote(pair: string)
    requires '-' !in pair
    ensures BaseAsset(pair) == pair && Quote(pair) == "USDT"
  {
    DashlessPair(pair, DEFAULT_QUOTE);
  }

  /** A fill factor is drawn from [0.5, 0.9). */
  datatype Inputs = Inputs(books: (Exchange, string) -> Option<OrderBookSnapshot>, fees: FeeCache,
                           buyFactor: real, sellFactor: real)

  // ----- one simulated leg -----

  function Fill(side: Side, book: OrderBookSnapshot, quantity: real, feeRate: real, factor: real): OrderResult {
    var eff := Effective(side, if side == Buy then book.asks else book.bids, quantity);
    var (status, filled) :=
      if eff.fullyFillable then (Filled, quantity) else (PartiallyFilled, eff.quantityFilled * factor);
    OrderResult(status, filled, eff.avgPrice, filled * eff.avgPrice * feeRate)
  }

  method SimulateFill(side: Side, book: OrderBookSnapshot, quantity: real, feeRate: real, factor: real)
    returns (r: OrderResult)
    ensures r == Fill(side, book, quantity, feeRate, factor)
  {
    hide Effective;
    var eff;
    if side == Buy {
      eff := EffectiveBuyPrice(book.asks, quantity);
    } else {
      eff := EffectiveSellPrice(book.bids, quantity);
    }
    var status, filled := Filled, quantity;
    if !eff.fullyFillable {
      status, filled := PartiallyFilled, eff.quantityFilled * factor;
    }
    r := OrderResult(status, filled, eff.avgPrice, filled * eff.avgPrice * feeRate);
  }

  // ----- the ledger as a value -----

  datatype Ledger = Ledger(balances: Balances, totalPnl: real, log: seq<TradeRecord>)

  datatype Op = Trade(opp: ArbitrageOpportunity, inputs: Inputs) | Rebalance

  predicate Covers(b: Balances, e: Exchange, asset: string, amount: real) {
    e in b && asset in b[e] && b[e][asset] >= amount
  }

  /** The checks of execute: the fees are not part of them. */
  predicate Accepts(b: Balances, opp: ArbitrageOpportunity, inputs: Inputs) {
    && Covers(b, opp.buyExchange, Quote(opp.pair), opp.buyPrice * opp.quantity)
    && Covers(b, opp.sellExchange, BaseAsset(opp.pair), opp.quantity)
    && inputs.books(opp.buyExchange, opp.pair).Some? && inputs.books(opp.sellExchange, opp.pair).Some?
  }

  function Matched(buy: OrderResult, sell: OrderResult): real {
    Min(buy.filledQuantity, sell.filledQuantity)
  }

  /** Fees are charged on each leg's own fill, costs on the matched quantity. */
  function BuyFlow(buy: OrderResult, sell: OrderResult): real {
    -(buy.avgFillPrice * Matched(buy, sell)) - buy.feePaid
  }

  function SellFlow(buy: OrderResult, sell: OrderResult): real {
    sell.avgFillPrice * Matched(buy, sell) - sell.feePaid
  }

  function Pnl(buy: OrderResult, sell: OrderResult): real {
    sell.avgFillPrice * Matched(buy, sell) - buy.avgFillPrice * Matched(buy, sell) - buy.feePaid - sell.feePaid
  }

  function Record(opp: ArbitrageOpportunity, buy: OrderResult, sell: OrderResult, pnl: real): TradeRecord {
    TradeRecord(opp.pair, opp.buyExchange, opp.sellExchange, opp.buyPrice, opp.sellPrice, opp.quantity,
                opp.grossSpreadBps, opp.netSpreadBps, buy, sell, pnl)
  }

  function Executed(b: Balances, opp: ArbitrageOpportunity, inputs: Inputs): TradeRecord {
    if !Accepts(b, opp, inputs) then Record(opp, REJECTED_RESULT, REJECTED_RESULT, 0.0)
    else
      var buyFee := TakerFee(inputs.fees, opp.buyExchange, opp.pair);
      var sellFee := TakerFee(inputs.fees, opp.sellExchange, opp.pair);
      var buy := Fill(Buy, inputs.books(opp.buyExchange, opp.pair).value, opp.quantity, buyFee, inputs.buyFactor);
      var sell := Fill(Sell, inputs.books(opp.sellExchange, opp.pair).value, opp.quantity, sellFee, inputs.sellFactor);
      Record(opp, buy, sell, Pnl(buy, sell))
  }

  function Settle(b: Balances, r: TradeRecord): Balances {
    var base, quote := BaseAsset(r.pair), Quote(r.pair);
    var matched := Matched(r.buyResult, r.sellResult);
    var b1 := Adjust(b, r.buyExchange, base, matched);
    var b2 := Adjust(b1, r.buyExchange, quote, BuyFlow(r.buyResult, r.sellResult));
    var b3 := Adjust(b2, r.sellExchange, base, -matched);
    Adjust(b3, r.sellExchange, quote, SellFlow(r.buyResult, r.sellResult))
  }

  ghost function AllAssets(b: Balances): set<string> {
    set e, a | e in b && a in b[e] :: a
  }

  /** Every exchange gets an equal share of every asset. */
  ghost function Rebalanced(b: Balances): Balances {
    if b == map[] then b
    else map e | e in b :: map a | a in AllAssets(b) :: AssetTotal(b, a) / |b| as real
  }

  ghost function LedgerStep(l: Ledger, op: Op): Ledger {
    match op
    case Rebalance => l.(balances := Rebalanced(l.balances))
    case Trade(opp, inputs) =>
      if !Accepts(l.balances, opp, inputs) then l
      else
        var r := Executed(l.balances, opp, inputs);
        Ledger(Settle(l.balances, r), l.totalPnl + r.realizedPnl, l.log + [r])
  }

  /** A trade happens exactly when the buyer's quote entry is at least the advertised
      cost, the seller's base entry at least the quantity, and both books exist.
      Then both orders are filled on those books, at each exchange's own fee and
      factor, and the record is logged; else it is rejected and nothing changes. */
  lemma TradeHappensIff(l: Ledger, opp: ArbitrageOpportunity, inputs: Inputs)
    ensures var b, e, x := l.balances, opp.buyExchange, opp.sellExchange;
      var base, quote := BaseAsset(opp.pair), Quote(opp.pair);
      var buyBook, sellBook := inputs.books(e, opp.pair), inputs.books(x, opp.pair);
      var r, after := Executed(b, opp, inputs), LedgerStep(l, Trade(opp, inputs));
      && r.(buyResult := PENDING_RESULT, sellResult := PENDING_RESULT, realizedPnl := 0.0)
         == TradeRecord(opp.pair, e, x, opp.buyPrice, opp.sellPrice, opp.quantity, opp.grossSpreadBps,
                        opp.netSpreadBps, PENDING_RESULT, PENDING_RESULT, 0.0)
      && if && e in b && quote in b[e] && b[e][quote] >= opp.buyPrice * opp.quantity
            && x in b && base in b[x] && b[x][base] >= opp.quantity
            && buyBook.Some? && sellBook.Some?
         then
           && r.buyResult == Fill(Buy, buyBook.value, opp.quantity, TakerFee(inputs.fees, e, opp.pair),
                                  inputs.buyFactor)
           && r.sellResult == Fill(Sell, sellBook.value, opp.quantity, TakerFee(inputs.fees, x, opp.pair),
                                   inputs.sellFactor)
           && after.log == l.log + [r] && after.totalPnl == l.totalPnl + r.realizedPnl
         else
           r.buyResult == r.sellResult == OrderResult(Rejected, 0.0, 0.0, 0.0) && r.realizedPnl == 0.0 && after == l
  {
    hide Fill, TakerFee, BaseAsset, QuoteAsset, Settle, Pnl;
  }

  /** In short: what the caller of execute sees of it. */
  lemma TradeShows(l: Ledger, opp: ArbitrageOpportunity, inputs: Inputs)
    ensures var b, e, x := l.balances, opp.buyExchange, opp.sellExchange;
      var base, quote := BaseAsset(opp.pair), Quote(opp.pair);
      var r, after := Executed(b, opp, inputs), LedgerStep(l, Trade(opp, inputs));
      if && e in b && quote in b[e] && b[e][quote] >= opp.buyPrice * opp.quantity
         && x in b && base in b[x] && b[x][base] >= opp.quantity
         && inputs.books(e, opp.pair).Some? && inputs.books(x, opp.pair).Some?
      then after.log == l.log + [r] && r.buyResult.status != Rejected && r.sellResult.status != Rejected
      else after == l && r.buyResult.status == r.sellResult.status == Rejected
  {
    hide LedgerStep, Executed, Effective, TakerFee, BaseAsset, QuoteAsset;
    TradeHappensIff(l, opp, inputs);
  }

  ghost function LedgerRun(l: Ledger, ops: seq<Op>): Ledger
    decreases |ops|
  {
    if ops == [] then l else LedgerStep(LedgerRun(l, ops[..|ops| - 1]), ops[|ops| - 1])
  }

  // ----- conservation -----

  /** A settled trade moves the base asset between exchanges and changes the
      total of its quote asset by its profit, whatever the two fills were. */
  lemma SettleConserves(b: Balances, r: TradeRecord, asset: string)
    requires r.realizedPnl == Pnl(r.buyResult, r.sellResult)
    ensures AssetTotal(Settle(b, r), asset)
         == AssetTotal(b, asset) + if asset == Quote(r.pair) then r.realizedPnl else 0.0
  {
    hide AssetTotal, Adjust, BaseAsset, QuoteAsset, Matched, BuyFlow, SellFlow, Pnl;
    var base, quote := BaseAsset(r.pair), Quote(r.pair);
    var matched := Matched(r.buyResult, r.sellResult);
    var paid, received := BuyFlow(r.buyResult, r.sellResult), SellFlow(r.buyResult, r.sellResult);
    var b1 := Adjust(b, r.buyExchange, base, matched);
    var b2 := Adjust(b1, r.buyExchange, quote, paid);
    var b3 := Adjust(b2, r.sellExchange, base, -matched);
    AdjustTotals(b, r.buyExchange, base, matched, asset);
    AdjustTotals(b1, r.buyExchange, quote, paid, asset);
    AdjustTotals(b2, r.sellExchange, base, -matched, asset);
    AdjustTotals(b3, r.sellExchange, quote, received, asset);
    FlowsArePnl(r.buyResult, r.sellResult);
  }

  lemma FlowsArePnl(buy: OrderResult, sell: OrderResult)
    ensures BuyFlow(buy, sell) + SellFlow(buy, sell) == Pnl(buy, sell)
  {
  }

  /** Rebalancing keeps the total of every asset and equalises it. */
  lemma RebalanceConserves(b: Balances, asset: string)
    ensures AssetTotal(Rebalanced(b), asset) == AssetTotal(b, asset)
    ensures Rebalanced(b).Keys == b.Keys
    ensures forall e, x :: e in b && x in b ==> Balance(Rebalanced(b), e, asset) == Balance(Rebalanced(b), x, asset)
  {
    hide Held, Balance;
    if b != map[] {
      var b', n := Rebalanced(b), |b| as real;
      assert b'.Keys == b.Keys && |b.Keys| == |b|;
      var share := if asset in AllAssets(b) then AssetTotal(b, asset) / n else 0.0;
      forall e | e in b ensures Balance(b', e, asset) == share {
        RebalancedEntry(b, e, asset);
      }
      SharesAddUp(b', b.Keys, asset, share);
      TotalIsHeldByKeys(b', asset);
      if asset in AllAssets(b) {
        QuotientTimes(AssetTotal(b, asset), n);
      } else {
        forall e | e in b ensures Balance(b, e, asset) == 0.0 {
          NotHeldAnywhere(b, e, asset);
        }
        SharesAddUp(b, b.Keys, asset, 0.0);
        TotalIsHeldByKeys(b, asset);
      }
    }
  }

  lemma RebalancedEntry(b: Balances, e: Exchange, asset: string)
    requires e in b
    ensures Balance(Rebalanced(b), e, asset)
         == if asset in AllAssets(b) then AssetTotal(b, asset) / |b| as real else 0.0
  {
  }

  lemma NotHeldAnywhere(b: Balances, e: Exchange, asset: string)
    requires asset !in AllAssets(b)
    ensures Balance(b, e, asset) == 0.0
  {
  }

  ghost function PnlIn(log: seq<TradeRecord>, asset: string): real {
    if log == [] then 0.0
    else
      var last := log[|log| - 1];
      PnlIn(log[..|log| - 1], asset) + if Quote(last.pair) == asset then last.realizedPnl else 0.0
  }

  ghost function PnlOf(log: seq<TradeRecord>): real {
    if log == [] then 0.0 else PnlOf(log[..|log| - 1]) + log[|log| - 1].realizedPnl
  }

  /** Over any run each asset's total changes exactly by the profits of the
      logged trades quoted in it, and the reported profit by all of them. */
  lemma {:induction false} RunConserves(l: Ledger, ops: seq<Op>, asset: string)
    ensures var l' := LedgerRun(l, ops);
      && l.log <= l'.log
      && AssetTotal(l'.balances, asset) - AssetTotal(l.balances, asset) == PnlIn(l'.log, asset) - PnlIn(l.log, asset)
      && l'.totalPnl - l.totalPnl == PnlOf(l'.log) - PnlOf(l.log)
    decreases |ops|
  {
    hide AssetTotal, Settle, Rebalanced, Pnl, Accepts, QuoteAsset, BaseAsset, Fill;
    if ops != [] {
      var before, op := ops[..|ops| - 1], ops[|ops| - 1];
      RunConserves(l, before, asset);
      var mid := LedgerRun(l, before);
      match op
      case Rebalance => RebalanceConserves(mid.balances, asset);
      case Trade(opp, inputs) =>
        if Accepts(mid.balances, opp, inputs) {
          var r := Executed(mid.balances, opp, inputs);
          SettleConserves(mid.balances, r, asset);
          assert (mid.log + [r])[..|mid.log|] == mid.log;
        }
    }
  }

  lemma {:induction false} UnquotedPnlIsZero(log: seq<TradeRecord>, asset: string)
    requires forall i :: 0 <= i < |log| ==> Quote(log[i].pair) != asset
    ensures PnlIn(log, asset) == 0.0
  {
    if log != [] {
      UnquotedPnlIsZero(log[..|log| - 1], asset);
    }
  }

  /** An asset that no trade of the log is quoted in keeps its total over every run. */
  lemma UnquotedTotalIsConserved(l: Ledger, ops: seq<Op>, asset: string)
    requires forall i :: 0 <= i < |LedgerRun(l, ops).log| ==> Quote(LedgerRun(l, ops).log[i].pair) != asset
    ensures AssetTotal(LedgerRun(l, ops).balances, asset) == AssetTotal(l.balances, asset)
  {
    hide LedgerRun, AssetTotal, PnlIn, Quote;
    RunConserves(l, ops, asset);
    UnquotedPnlIsZero(LedgerRun(l, ops).log, asset);
    UnquotedPnlIsZero(l.log, asset);
  }

  ghost function SumPnlIn(log: seq<TradeRecord>, assets: seq<string>): real {
    if assets == [] then 0.0 else PnlIn(log, assets[0]) + SumPnlIn(log, assets[1..])
  }

  lemma {:induction false} SumGrows(log: seq<TradeRecord>, r: TradeRecord, assets: seq<string>)
    requires Distinct(assets)
    ensures SumPnlIn(log + [r], assets)
         == SumPnlIn(log, assets) + if Quote(r.pair) in assets then r.realizedPnl else 0.0
  {
    if assets != [] {
      SumGrows(log, r, assets[1..]);
      assert (log + [r])[..|log|] == log;
    }
  }

  lemma {:induction false} PnlByQuote(log: seq<TradeRecord>, assets: seq<string>)
    requires Distinct(assets)
    requires forall i :: 0 <= i < |log| ==> Quote(log[i].pair) in assets
    ensures SumPnlIn(log, assets) == PnlOf(log)
  {
    if log == [] {
      SumOfNothing(assets);
    } else {
      var before, last := log[..|log| - 1], log[|log| - 1];
      PnlByQuote(before, assets);
      SumGrows(before, last, assets);
      assert before + [last] == log;
    }
  }

  lemma {:induction false} SumOfNothing(assets: seq<string>)
    ensures SumPnlIn([], assets) == 0.0
  {
    if assets != [] {
      SumOfNothing(assets[1..]);
    }
  }

  ghost function SumTotals(b: Balances, assets: seq<string>): real {
    if assets == [] then 0.0 else AssetTotal(b, assets[0]) + SumTotals(b, assets[1..])
  }

  lemma {:induction false} SumTotalsChange(l: Ledger, ops: seq<Op>, assets: seq<string>)
    ensures SumTotals(LedgerRun(l, ops).balances, assets) - SumTotals(l.balances, assets)
         == SumPnlIn(LedgerRun(l, ops).log, assets) - SumPnlIn(l.log, assets)
  {
    hide AssetTotal, LedgerRun, PnlIn;
    if assets != [] {
      RunConserves(l, ops, assets[0]);
      SumTotalsChange(l, ops, assets[1..]);
    }
  }

  /** The reported profit is the summed change of all quote totals and the sum over the log. */
  lemma ReportedPnlIsQuoteChange(l: Ledger, ops: seq<Op>, quotes: seq<string>)
    requires Distinct(quotes)
    requires forall i :: 0 <= i < |LedgerRun(l, ops).log| ==> Quote(LedgerRun(l, ops).log[i].pair) in quotes
    ensures var l' := LedgerRun(l, ops);
      && l'.totalPnl - l.totalPnl == SumTotals(l'.balances, quotes) - SumTotals(l.balances, quotes)
      && l'.totalPnl - l.totalPnl == PnlOf(l'.log) - PnlOf(l.log)
  {
    hide LedgerRun, AssetTotal, SumTotals, SumPnlIn, PnlIn, PnlOf;
    RunConserves(l, ops, "");
    SumTotalsChange(l, ops, quotes);
    var log := LedgerRun(l, ops).log;
    PnlByQuote(log, quotes);
    forall i | 0 <= i < |l.log| ensures Quote(l.log[i].pair) in quotes {
      assert l.log[i] == log[i];
    }
    PnlByQuote(l.log, quotes);
  }

  // ----- the initial distribution -----

  function Initial(amounts: map<string, real>, active: seq<Exchange>): Balances {
    if active == [] || amounts == map[] then map[]
    else map e | e in active :: map a | a in amounts :: amounts[a] / |active| as real
  }

  /** Every active exchange holds its share of every asset, and nothing else is held. */
  lemma InitialShares(amounts: map<string, real>, active: seq<Exchange>, e: Exchange, asset: string)
    ensures var held := Balance(Initial(amounts, active), e, asset);
      if e in active && asset in amounts then held * |active| as real == amounts[asset] else held == 0.0
  {
    if e in active && asset in amounts {
      QuotientTimes(amounts[asset], |active| as real);
    }
  }

  lemma DistinctStep(active: seq<Exchange>)
    requires active != []
    ensures Distinct(active) <==> active[0] !in active[1..] && Distinct(active[1..])
  {
    if Distinct(active) {
      forall i, j | 0 <= i < j < |active[1..]| ensures active[1..][i] != active[1..][j] {
        assert active[i + 1] != active[j + 1];
      }
    }
  }

  lemma {:induction false} DistinctCount(active: seq<Exchange>)
    ensures var s := set e | e in active;
      |s| <= |active| && (|s| == |active| <==> Distinct(active))
  {
    hide Distinct;
    if active == [] {
      assert (set e | e in active) == {};
      EmptyIsDistinct();
    } else {
      var s, s' := set e | e in active, set e | e in active[1..];
      DistinctCount(active[1..]);
      DistinctStep(active);
      assert s == s' + {active[0]};
      assert active[0] in active[1..] ==> s == s';
    }
  }

  lemma EmptyIsDistinct()
    ensures Distinct<Exchange>([])
  {
  }

  lemma InitialTotal(amounts: map<string, real>, active: seq<Exchange>, asset: string)
    requires active != [] && asset in amounts
    ensures AssetTotal(Initial(amounts, active), asset)
         == |set e | e in active| as real * (amounts[asset] / |active| as real)
  {
    hide Held;
    var b, s := Initial(amounts, active), set e | e in active;
    assert b.Keys == s;
    SharesAddUp(b, s, asset, amounts[asset] / |active| as real);
    TotalIsHeldByKeys(b, asset);
  }

  /** The initial amounts are distributed in full exactly when the list of
      exchanges names none twice. */
  lemma InitialTotalIff(amounts: map<string, real>, active: seq<Exchange>, asset: string)
    requires active != [] && asset in amounts && amounts[asset] != 0.0
    ensures AssetTotal(Initial(amounts, active), asset) == amounts[asset] <==> Distinct(active)
  {
    hide AssetTotal, Initial, Distinct;
    var n := |active| as real;
    var s := set e | e in active;
    InitialTotal(amounts, active, asset);
    DistinctCount(active);
    var share := amounts[asset] / n;
    QuotientTimes(amounts[asset], n);
    assert n * share == amounts[asset];
    EqualMultiples(|s| as real, n, share);
  }

  lemma EqualMultiples(a: real, b: real, x: real)
    requires b * x != 0.0
    ensures a * x == b * x <==> a == b
  {
    if a * x == b * x {
      assert (a - b) * x == 0.0;
    }
  }

  // ----- the object -----

  class PaperExecutor {
    var virtualBalances: Balances
    var totalPnl: real
    var log: seq<TradeRecord>

    ghost function State(): Ledger
      reads this
    {
      Ledger(virtualBalances, totalPnl, log)
    }

    constructor (amounts: map<string, real>, active: seq<Exchange>)
      ensures State() == Ledger(Initial(amounts, active), 0.0, [])
    {
      totalPnl, log := 0.0, [];
      virtualBalances := Initial(amounts, active);
    }

    method Execute(opp: ArbitrageOpportunity, inputs: Inputs) returns (record: TradeRecord)
      modifies this
      ensures record == Executed(old(virtualBalances), opp, inputs)
      ensures State() == LedgerStep(old(State()), Trade(opp, inputs))
      ensures var b, e, x := old(virtualBalances), opp.buyExchange, opp.sellExchange;
        var base, quote := BaseAsset(opp.pair), Quote(opp.pair);
        if && e in b && quote in b[e] && b[e][quote] >= opp.buyPrice * opp.quantity
           && x in b && base in b[x] && b[x][base] >= opp.quantity
           && inputs.books(e, opp.pair).Some? && inputs.books(x, opp.pair).Some?
        then log == old(log) + [record] && record.buyResult.status != Rejected && record.sellResult.status != Rejected
        else State() == old(State()) && record.buyResult.status == record.sellResult.status == Rejected
    {
      TradeShows(State(), opp, inputs);
      hide Fill, Adjust, BaseAsset, QuoteAsset, TakerFee, Rebalanced, Matched, BuyFlow, SellFlow, Pnl;
      var base, quote := BaseAsset(opp.pair), Quote(opp.pair);
      var rejected := Record(opp, REJECTED_RESULT, REJECTED_RESULT, 0.0);
      if !Covers(virtualBalances, opp.buyExchange, quote, opp.buyPrice * opp.quantity) {
        return rejected;
      }
      if !Covers(virtualBalances, opp.sellExchange, base, opp.quantity) {
        return rejected;
      }
      var buyBook, sellBook := inputs.books(opp.buyExchange, opp.pair), inputs.books(opp.sellExchange, opp.pair);
      if buyBook.None? || sellBook.None? {
        return rejected;
      }
      var buyFee := TakerFee(inputs.fees, opp.buyExchange, opp.pair);
      var sellFee := TakerFee(inputs.fees, opp.sellExchange, opp.pair);
      var buy := SimulateFill(Buy, buyBook.value, opp.quantity, buyFee, inputs.buyFactor);
      var sell := SimulateFill(Sell, sellBook.value, opp.quantity, sellFee, inputs.sellFactor);
      var matched := Matched(buy, sell);
      UpdateBalance(opp.buyExchange, base, matched);
      UpdateBalance(opp.buyExchange, quote, BuyFlow(buy, sell));
      UpdateBalance(opp.sellExchange, base, -matched);
      UpdateBalance(opp.sellExchange, quote, SellFlow(buy, sell));
      record := Record(opp, buy, sell, Pnl(buy, sell));
      totalPnl := totalPnl + record.realizedPnl;
      log := log + [record];
    }

    method UpdateBalance(e: Exchange, asset: string, delta: real)
      modifies this`virtualBalances
      ensures virtualBalances == Adjust(old(virtualBalances), e, asset, delta)
    {
      var assets := if e in virtualBalances then virtualBalances[e] else map[];
      var current := if asset in assets then assets[asset] else 0.0;
      virtualBalances := virtualBalances[e := assets[asset := current + delta]];
    }

    method RebalanceAll()
      modifies this`virtualBalances
      ensures State() == LedgerStep(old(State()), Rebalance)
    {
      if virtualBalances == map[] {
        return;
      }
      hide Held, Shared, Rebalanced;
      var totals := CollectTotals(virtualBalances);
      var n := |virtualBalances| as real;
      ghost var before := virtualBalances;
      ghost var done := {};
      var pending := totals.Keys;
      NothingShared(before, totals, n);
      while pending != {}
        invariant done <= totals.Keys && done + pending == totals.Keys
        invariant Shared(virtualBalances, before, totals, n, done)
        decreases pending
      {
        var asset :| asset in pending;
        ShareOneMore(virtualBalances, before, totals, n, done, asset);
        virtualBalances := GiveShare(virtualBalances, asset, totals[asset] / n);
        done := done + {asset};
        pending := pending - {asset};
      }
      AllShared(virtualBalances, before, totals);
    }

    /** The inner loop: every exchange's entry is overwritten with the share. */
    static function GiveShare(b: Balances, asset: string, share: real): Balances {
      map e | e in b :: b[e][asset := share]
    }

    static ghost function Shares(totals: map<string, real>, n: real, done: set<string>): map<string, real>
      requires n != 0.0 && done <= totals.Keys
    {
      map a | a in done :: totals[a] / n
    }

    /** The assets in `done` have been redistributed. */
    static ghost predicate Shared(b: Balances, before: Balances, totals: map<string, real>, n: real, done: set<string>)
      requires n != 0.0 && done <= totals.Keys
    {
      b.Keys == before.Keys && forall e :: e in before ==> b[e] == before[e] + Shares(totals, n, done)
    }

    static lemma NothingShared(before: Balances, totals: map<string, real>, n: real)
      requires n != 0.0
      ensures Shared(before, before, totals, n, {})
    {
      forall e | e in before ensures before[e] == before[e] + Shares(totals, n, {}) {
      }
    }

    static lemma ShareOneMore(b: Balances, before: Balances, totals: map<string, real>, n: real, done: set<string>,
                              asset: string)
      requires n != 0.0 && done <= totals.Keys && asset in totals && Shared(b, before, totals, n, done)
      ensures Shared(GiveShare(b, asset, totals[asset] / n), before, totals, n, done + {asset})
    {
      var shares, share := Shares(totals, n, done), totals[asset] / n;
      assert Shares(totals, n, done + {asset}) == shares[asset := share];
      hide Shares;
      forall e | e in before ensures b[e][asset := share] == before[e] + shares[asset := share] {
        MergeThenSet(before[e], shares, asset, share);
      }
    }

    static lemma MergeThenSet(amounts: map<string, real>, shares: map<string, real>, asset: string, share: real)
      ensures (amounts + shares)[asset := share] == amounts + shares[asset := share]
    {
    }

    static lemma AllShared(b: Balances, before: Balances, totals: map<string, real>)
      requires before != map[] && totals == map a | a in AllAssets(before) :: AssetTotal(before, a)
      requires Shared(b, before, totals, |before| as real, totals.Keys)
      ensures b == Rebalanced(before)
    {
      hide Held;
      var n := |before| as real;
      forall e | e in before ensures b[e] == Rebalanced(before)[e] {
        OneAllShared(before, totals, e);
      }
      hide Shared, Rebalanced;
      RebalancedKeys(before);
    }

    static lemma RebalancedKeys(before: Balances)
      ensures Rebalanced(before).Keys == before.Keys
    {
    }

    static lemma OneAllShared(before: Balances, totals: map<string, real>, e: Exchange)
      requires e in before && totals == map a | a in AllAssets(before) :: AssetTotal(before, a)
      ensures before[e] + Shares(totals, |before| as real, totals.Keys) == Rebalanced(before)[e]
    {
      hide AssetTotal;
      assert before[e].Keys <= AllAssets(before);
    }

    static method CollectTotals(balances: Balances) returns (totals: map<string, real>)
      ensures totals == map a | a in AllAssets(balances) :: AssetTotal(balances, a)
    {
      hide Held;
      totals := map[];
      var pending := balances.Keys;
      EmptyHeld(balances);
      while pending != {}
        invariant pending <= balances.Keys
        invariant totals.Keys == set e, a | e in balances.Keys - pending && a in balances[e] :: a
        invariant forall a :: a in totals ==> totals[a] == Held(balances, balances.Keys - pending, a)
        invariant forall a :: a !in totals ==> Held(balances, balances.Keys - pending, a) == 0.0
        decreases pending
      {
        var e :| e in pending;
        ghost var done := balances.Keys - pending;
        totals := AddAssets(totals, balances[e]);
        assert balances.Keys - (pending - {e}) == done + {e};
        forall a ensures Held(balances, done + {e}, a) == Held(balances, done, a) + Balance(balances, e, a) {
          HeldOneMore(balances, done, e, a);
        }
        pending := pending - {e};
      }
      assert balances.Keys - {} == balances.Keys;
      forall a ensures AssetTotal(balances, a) == Held(balances, balances.Keys, a) {
        TotalIsHeldByKeys(balances, a);
      }
    }

    /** The inner loop: one exchange's amounts are added to the totals. */
    static method AddAssets(totals: map<string, real>, amounts: map<string, real>) returns (r: map<string, real>)
      ensures r.Keys == totals.Keys + amounts.Keys
      ensures forall a :: a in r ==>
        r[a] == (if a in totals then totals[a] else 0.0) + (if a in amounts then amounts[a] else 0.0)
    {
      r := totals;
      var pending := amounts.Keys;
      while pending != {}
        invariant pending <= amounts.Keys
        invariant r.Keys == totals.Keys + (amounts.Keys - pending)
        invariant forall a :: a in r ==>
          r[a] == (if a in totals then totals[a] else 0.0) + (if a in amounts.Keys - pending then amounts[a] else 0.0)
        decreases pending
      {
        var a :| a in pending;
        r := r[a := (if a in r then r[a] else 0.0) + amounts[a]];
        pending := pending - {a};
      }
    }

    static lemma EmptyHeld(balances: Balances)
      ensures forall a :: Held(balances, balances.Keys - balances.Keys, a) == 0.0
    {
    }
  }
}
