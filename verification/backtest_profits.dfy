/** What the trades of a backtest earn when the replayed books are clean: sorted,
    without duplicate prices, with positive prices and sizes
    (src/backtest/backtest_engine.cpp, src/backtest/simulated_exchange.cpp). */
module BacktestProfits {
  import opened Types
  import opened RealFacts
  import opened DepthWalk
  import opened DepthAnalyzer
  import opened PriceLevels
  import opened BookRuns
  import opened Ledgers
  import opened LimitOrders
  import opened SimulatedExchanges
  import opened BacktestAccounts
  import opened BacktestIntents
  import opened BacktestRuns

  ghost predicate Clean(descending: bool, levels: seq<PriceLevel>) {
    StrictlySorted(descending, levels) && PositiveSizes(levels) && PositivePrices(levels)
  }

  // ----- the served book is the top of the replayed one -----

  lemma {:induction false} KeepPositiveIsAll(levels: seq<PriceLevel>)
    requires PositiveSizes(levels)
    ensures KeepPositive(levels) == levels
  {
    if levels != [] {
      KeepPositiveIsAll(levels[1..]);
    }
  }

  /** A strictly sorted side with positive sizes is its own and only snapshot. */
  lemma SnapshotOfCleanIsItself(descending: bool, v: seq<PriceLevel>, levels: seq<PriceLevel>)
    requires IsSnapshotOf(descending, v, levels) && StrictlySorted(descending, levels) && PositiveSizes(levels)
    ensures v == levels
  {
    KeepPositiveIsAll(levels);
    StrictIsDistinct(descending, levels);
    SnapshotFolds(descending, v, levels);
    SnapshotFolds(descending, levels, levels);
    SortedListIsUnique(descending, v, levels);
  }

  lemma PrefixIsClean(descending: bool, levels: seq<PriceLevel>, n: nat)
    requires Clean(descending, levels) && n <= |levels|
    ensures Clean(descending, levels[..n])
  {
  }

  /** A quantity that the top of a book holds walks the top and the whole book alike. */
  lemma {:induction false} PrefixWalk(levels: seq<PriceLevel>, n: nat, quantity: real)
    requires PositiveSizes(levels) && n <= |levels| && quantity <= DepthWalk.Total(levels[..n])
    ensures Remaining(levels[..n], quantity) == Remaining(levels, quantity)
    ensures Cost(levels[..n], quantity) == Cost(levels, quantity)
    ensures quantity > 0.0 ==> quantity <= DepthWalk.Total(levels)
  {
    hide Remaining, Cost, Notional;
    if n == 0 || quantity <= 0.0 {
      NoStep(levels[..n], quantity);
      NoStep(levels, quantity);
    } else {
      assert levels[..n][1..] == levels[1..][..n - 1];
      OneStep(levels[..n], quantity);
      OneStep(levels, quantity);
      TotalNonNegative(levels[1..]);
      if quantity > levels[0].quantity {
        PrefixWalk(levels[1..], n - 1, quantity - levels[0].quantity);
      }
    }
  }

  lemma PrefixPrice(side: Side, levels: seq<PriceLevel>, n: nat, quantity: real)
    requires PositiveSizes(levels) && n <= |levels| && Effective(side, levels[..n], quantity).fullyFillable
    ensures 0.0 < quantity <= DepthWalk.Total(levels)
    ensures Effective(side, levels, quantity) == Effective(side, levels[..n], quantity)
  {
    if quantity > 0.0 {
      assert PositiveSizes(levels[..n]);
      EffectiveFills(side, levels[..n], quantity);
      PrefixWalk(levels, n, quantity);
    }
  }

  // ----- one leg -----

  /** The account covers the order and its limit admits the deepest level touched. */
  ghost predicate LegSucceeds(b: map<string, real>, levels: seq<PriceLevel>, req: OrderRequest) {
    Available(b, req) >= Needed(req) && DeepestAdmitted(req.side, levels, req.price, req.quantity)
  }

  /** An order for a quantity that the top of a clean book holds fills exactly
      when it succeeds in both respects, and then at the price found on the top. */
  lemma LegFillsIff(b: map<string, real>, takerFee: real, levels: seq<PriceLevel>, req: OrderRequest)
    requires Clean(req.side == Sell, levels)
    requires Effective(req.side, levels[..MinNat(DEPTH, |levels|)], req.quantity).fullyFillable
    ensures var r := Outcome(b, takerFee, levels, req);
      var price := Effective(req.side, levels[..MinNat(DEPTH, |levels|)], req.quantity).avgPrice;
      && (r.status == Filled <==> LegSucceeds(b, levels, req))
      && (r.status == Filled ==> r == FullFill(req.quantity, price, takerFee))
  {
    PrefixPrice(req.side, levels, MinNat(DEPTH, |levels|), req.quantity);
    StrictIsOrdered(req.side, levels);
    hide Outcome, FullFill, Effective, Available, Needed, DeepestAdmitted, DepthWalk.Total;
    OrderFillsIff(b, takerFee, levels, req);
  }

  lemma StrictIsOrdered(side: Side, levels: seq<PriceLevel>)
    requires StrictlySorted(side == Sell, levels)
    ensures Ordered(side, levels)
  {
  }

  // ----- where a placement comes from -----

  ghost predicate ComesFrom(c: Config, fees: map<Exchange, real>, pair: string, buy: TopBook, sell: TopBook,
                            t: Intent)
  {
    && buy.exchange in fees && sell.exchange in fees
    && Wanted(c, FeeRate(fees, buy.exchange, sell.exchange), buy, sell)
    && t == IntentFor(c, FeeRate(fees, buy.exchange, sell.exchange), pair, buy, sell)
  }

  lemma {:induction false} RowSource(c: Config, fees: map<Exchange, real>, pair: string, books: seq<TopBook>, i: nat,
                                     n: nat, t: Intent)
    returns (j: nat)
    requires i < |books| && n <= |books| && Charged(books, fees) && t in RowIntents(c, fees, pair, books, i, n)
    ensures j < |books| && j != i && ComesFrom(c, fees, pair, books[i], books[j], t)
  {
    hide Wanted, IntentFor;
    if t in RowIntents(c, fees, pair, books, i, n - 1) {
      j := RowSource(c, fees, pair, books, i, n - 1, t);
    } else {
      j := n - 1;
      assert t in BookIntents(c, fees, pair, books[i], books[j]);
    }
  }

  lemma {:induction false} PairSource(c: Config, fees: map<Exchange, real>, pair: string, books: seq<TopBook>, m: nat,
                                      t: Intent)
    returns (i: nat, j: nat)
    requires m <= |books| && Charged(books, fees) && t in PairIntents(c, fees, pair, books, m)
    ensures i < |books| && j < |books| && j != i && ComesFrom(c, fees, pair, books[i], books[j], t)
  {
    hide Wanted, IntentFor, RowIntents, ComesFrom;
    if t in PairIntents(c, fees, pair, books, m - 1) {
      i, j := PairSource(c, fees, pair, books, m - 1, t);
    } else {
      i := m - 1;
      j := RowSource(c, fees, pair, books, m - 1, |books|, t);
    }
  }

  lemma BookSource(books: Books, pair: string, i: nat)
    requires GoodBooks(books) && i < |PairBooks(books, pair)|
    ensures var book := PairBooks(books, pair)[i];
      (book.exchange, pair) in books && book == books[(book.exchange, pair)] && GoodTop(book)
  {
    hide GoodTop;
  }

  lemma {:induction false} PlacedAt(m: Market, b: Balances, ps: seq<TradeRecord>, k: nat)
    requires AllPlacedOn(m, b, ps) && k < |ps|
    ensures PlacedOn(m, SettledAll(b, ps[..k]), ps[k])
    decreases |ps|
  {
    hide PlacedOn, SettledAll;
    if k < |ps| - 1 {
      PlacedAt(m, b, ps[..|ps| - 1], k);
      assert ps[..|ps| - 1][..k] == ps[..k];
    }
  }

  // ----- placements on clean books -----

  ghost predicate CleanVenue(v: Venue, pair: string) {
    Clean(true, Quotes(v, Sell, pair)) && Clean(false, Quotes(v, Buy, pair))
  }

  lemma ServedIsTop(v: Venue, e: Exchange, pair: string, books: Books)
    requires CleanVenue(v, pair) && Shows(v, pair) && CurrentFor(v, e, pair, books)
    ensures (e, pair) in books
    ensures books[(e, pair)].bids == Replayed(v, Sell, pair) && books[(e, pair)].asks == Replayed(v, Buy, pair)
    ensures Clean(true, Replayed(v, Sell, pair)) && Clean(false, Replayed(v, Buy, pair))
  {
    var bids, asks := Quotes(v, Sell, pair), Quotes(v, Buy, pair);
    PrefixIsClean(true, bids, MinNat(DEPTH, |bids|));
    PrefixIsClean(false, asks, MinNat(DEPTH, |asks|));
    hide Quotes, IsSnapshotOf, StrictlySorted, PositiveSizes, PositivePrices;
    SnapshotOfCleanIsItself(true, books[(e, pair)].bids, Replayed(v, Sell, pair));
    SnapshotOfCleanIsItself(false, books[(e, pair)].asks, Replayed(v, Buy, pair));
  }

  /** Both legs succeed, on the accounts the earlier placements left. */
  ghost predicate BothSucceed(m: Market, b: Balances, p: TradeRecord)
    requires p.buyExchange in m && p.sellExchange in m
  {
    && LegSucceeds(AccountOf(b, p.buyExchange), Quotes(m[p.buyExchange], Buy, p.pair), Leg(Buy, p))
    && LegSucceeds(AccountOf(b, p.sellExchange), Quotes(m[p.sellExchange], Sell, p.pair), Leg(Sell, p))
  }

  ghost predicate EarnsAtVenues(m: Market, p: TradeRecord) {
    p.buyExchange in m && p.sellExchange in m && EarnsMargin(p, m[p.buyExchange].takerFee, m[p.sellExchange].takerFee)
  }

  lemma IntentFromBooks(c: Config, m: Market, buy: TopBook, sell: TopBook, p: TradeRecord)
    requires ComesFrom(c, FeesOf(m), p.pair, buy, sell, IntentOf(p))
    ensures p.buyExchange == buy.exchange && p.sellExchange == sell.exchange && buy.exchange in m && sell.exchange in m
    ensures var feeRate := m[p.buyExchange].takerFee + m[p.sellExchange].takerFee;
      Wanted(c, feeRate, buy, sell) && IntentOf(p) == IntentFor(c, feeRate, p.pair, buy, sell)
    ensures Effective(Buy, buy.asks, p.quantity).fullyFillable
      && Effective(Buy, buy.asks, p.quantity).avgPrice == p.buyPrice
    ensures Effective(Sell, sell.bids, p.quantity).fullyFillable
      && Effective(Sell, sell.bids, p.quantity).avgPrice == p.sellPrice
  {
    hide Effective, SpreadBps, LotSize;
  }

  /** The placement wanted between two served books that are the tops of clean ones. */
  lemma PlacementOnTops(c: Config, m: Market, b: Balances, buy: TopBook, sell: TopBook, p: TradeRecord)
    requires PlacedOn(m, b, p) && ComesFrom(c, FeesOf(m), p.pair, buy, sell, IntentOf(p)) && GoodTop(buy)
    requires CleanVenue(m[p.buyExchange], p.pair) && CleanVenue(m[p.sellExchange], p.pair)
    requires buy.asks == Replayed(m[p.buyExchange], Buy, p.pair)
      && sell.bids == Replayed(m[p.sellExchange], Sell, p.pair)
    requires PositivePrices(buy.asks)
    ensures BothFilled(p) <==> BothSucceed(m, b, p)
    ensures BothFilled(p) ==> EarnsAtVenues(m, p)
  {
    var bf, sf := m[p.buyExchange].takerFee, m[p.sellExchange].takerFee;
    IntentFromBooks(c, m, buy, sell, p);
    hide Outcome, Effective, Wanted, LegSucceeds, Clean, FullFill, PnlOfLegs, Quotes, GoodTop, EarnsMargin;
    LegFillsIff(AccountOf(b, p.buyExchange), bf, Quotes(m[p.buyExchange], Buy, p.pair), Leg(Buy, p));
    LegFillsIff(AccountOf(b, p.sellExchange), sf, Quotes(m[p.sellExchange], Sell, p.pair), Leg(Sell, p));
    if BothFilled(p) {
      PlacedIsWellPlaced(m, b, p);
      FullFillsEarnMargin(c, bf, sf, p.pair, buy, sell, p);
    }
  }

  /** A placement of a visit is recorded exactly when both exchanges still show
      the pair and both legs succeed; then it earns its margin. */
  lemma PlacementOfVisit(c: Config, b: Balances, v: Visit, k: nat)
    requires TradesAll(c, b, v) && GoodBooks(v.books) && k < |v.placed|
    requires forall e :: e in v.market ==>
      CleanVenue(v.market[e], v.pair) && CurrentFor(v.market[e], e, v.pair, v.books)
    ensures var p := v.placed[k];
      && p.buyExchange in v.market && p.sellExchange in v.market
      && (BothFilled(p) <==>
           && Shows(v.market[p.buyExchange], v.pair) && Shows(v.market[p.sellExchange], v.pair)
           && BothSucceed(v.market, SettledAll(b, v.placed[..k]), p))
      && (BothFilled(p) ==> EarnsAtVenues(v.market, p))
  {
    var p, acc, books := v.placed[k], SettledAll(b, v.placed[..k]), PairBooks(v.books, v.pair);
    PlacedAt(v.market, b, v.placed, k);
    assert IntentOf(p) == Intents(v.placed)[k];
    var i, j := PairSource(c, FeesOf(v.market), v.pair, books, |books|, IntentOf(p));
    BookSource(v.books, v.pair, i);
    BookSource(v.books, v.pair, j);
    hide PairBooks, PairIntents, Intents, AllPlacedOn, SettledAll, Clean, CleanVenue, GoodTop, GoodBooks, Charged;
    PairOfIntent(c, v.market, v.pair, books[i], books[j], p);
    IntentFromBooks(c, v.market, books[i], books[j], p);
    var buyer, seller := v.market[p.buyExchange], v.market[p.sellExchange];
    hide ComesFrom, Wanted, Effective, CurrentFor, IntentOf;
    if BothFilled(p) {
      FilledShows(v.market, acc, p);
    }
    if Shows(buyer, v.pair) && Shows(seller, v.pair) {
      ServedIsTop(buyer, p.buyExchange, v.pair, v.books);
      ServedIsTop(seller, p.sellExchange, v.pair, v.books);
      CleanIsPositive(false, books[i].asks);
      hide PlacedOn, BothSucceed, EarnsAtVenues, Shows, Replayed;
      PlacementOnTops(c, v.market, acc, books[i], books[j], p);
    }
  }

  lemma PairOfIntent(c: Config, m: Market, pair: string, buy: TopBook, sell: TopBook, p: TradeRecord)
    requires ComesFrom(c, FeesOf(m), pair, buy, sell, IntentOf(p))
    ensures p.pair == pair
  {
    hide Wanted;
  }

  lemma CleanIsPositive(descending: bool, levels: seq<PriceLevel>)
    requires Clean(descending, levels)
    ensures PositivePrices(levels)
  {
  }

  /** An order on an empty book is rejected, so what filled was shown. */
  lemma FilledShows(m: Market, b: Balances, p: TradeRecord)
    requires PlacedOn(m, b, p) && BothFilled(p)
    ensures Shows(m[p.buyExchange], p.pair) && Shows(m[p.sellExchange], p.pair)
  {
    hide Quotes, Available, Needed, FillReport;
    assert Quotes(m[p.buyExchange], Buy, p.pair) != [] && Quotes(m[p.sellExchange], Sell, p.pair) != [];
    assert Replayed(m[p.buyExchange], Buy, p.pair) != [] && Replayed(m[p.sellExchange], Sell, p.pair) != [];
  }

  // ----- a whole run on clean data -----

  ghost predicate CleanData(data: seq<HistoricalSnapshot>) {
    forall i :: 0 <= i < |data| ==> Clean(true, data[i].bids) && Clean(false, data[i].asks)
  }

  lemma CleanDataIsReplayed(m: Market, data: seq<HistoricalSnapshot>, e: Exchange, pair: string)
    requires Holds(m, data) && CleanData(data) && e in m
    ensures CleanVenue(m[e], pair)
  {
    hide FeesOf, Own, Clean;
    var v := m[e];
    NothingIsClean();
    assert HoldsOwn(v, e, data);
    if pair in v.snapshots && pair in v.position && v.position[pair] < |v.snapshots[pair]| {
      var s := v.snapshots[pair][v.position[pair]];
      assert s in multiset(StoredFor(v.snapshots, pair));
      assert s in multiset(Own(data, e, pair));
      OwnIff(data, e, pair, s);
    }
  }

  lemma NothingIsClean()
    ensures Clean(true, []) && Clean(false, [])
  {
  }

  lemma {:induction false} TradesAllAt(c: Config, b: Balances, visits: seq<Visit>, i: nat)
    requires Follows(c, b, visits) && i < |visits|
    ensures TradesAll(c, SettledAll(b, PlacedIn(visits[..i])), visits[i])
    decreases |visits|
  {
    hide TradesAll, SettledAll, PlacedIn;
    if i < |visits| - 1 {
      TradesAllAt(c, b, visits[..|visits| - 1], i);
      assert visits[..|visits| - 1][..i] == visits[..i];
    }
  }

  lemma {:induction false} PlacedInVisit(visits: seq<Visit>, p: TradeRecord) returns (i: nat, k: nat)
    requires p in PlacedIn(visits)
    ensures i < |visits| && k < |visits[i].placed| && visits[i].placed[k] == p
  {
    var before, last := visits[..|visits| - 1], visits[|visits| - 1];
    if p in PlacedIn(before) {
      i, k := PlacedInVisit(before, p);
    } else {
      i := |visits| - 1;
      k :| 0 <= k < |last.placed| && last.placed[k] == p;
    }
  }

  lemma {:induction false} RecordedWasFilled(ps: seq<TradeRecord>, p: TradeRecord)
    requires p in Recorded(ps)
    ensures p in ps && BothFilled(p)
  {
    hide BothFilled;
    if p in Recorded(ps[..|ps| - 1]) {
      RecordedWasFilled(ps[..|ps| - 1], p);
    }
  }

  ghost predicate SeesCleanReplay(data: seq<HistoricalSnapshot>, active: set<string>, visits: seq<Visit>) {
    CleanData(data) && forall i :: 0 <= i < |visits| ==> SeesReplay(data, active, visits[i]) && visits[i].pair in active
  }

  /** What a run guarantees of its visits is enough, once the data is clean. */
  lemma RunSeesCleanReplay(data: seq<HistoricalSnapshot>, active: set<string>, visits: seq<Visit>)
    requires CleanData(data) && Slots(visits) == Grid(Times(data), active)
    requires forall i :: 0 <= i < |visits| ==> SeesReplay(data, active, visits[i])
    ensures SeesCleanReplay(data, active, visits)
  {
    hide CleanData, SeesReplay, Times;
    forall i | 0 <= i < |visits| ensures visits[i].pair in active {
      assert (visits[i].timeMs, visits[i].pair) in Slots(visits);
    }
  }

  /** Which of its placements a run on clean data records: exactly those whose two
      exchanges still show the pair, whose two accounts cover them, and whose two
      limits admit the deepest level touched. */
  lemma RecordedIff(c: Config, b: Balances, data: seq<HistoricalSnapshot>, active: set<string>, visits: seq<Visit>,
                    i: nat, k: nat)
    requires Follows(c, b, visits) && SeesCleanReplay(data, active, visits) && i < |visits| && k < |visits[i].placed|
    ensures var v := visits[i];
      var p, accounts := v.placed[k], SettledAll(SettledAll(b, PlacedIn(visits[..i])), v.placed[..k]);
      && p.buyExchange in v.market && p.sellExchange in v.market
      && (BothFilled(p) <==>
           && Shows(v.market[p.buyExchange], v.pair) && Shows(v.market[p.sellExchange], v.pair)
           && BothSucceed(v.market, accounts, p))
      && (BothFilled(p) ==> EarnsAtVenues(v.market, p))
  {
    var v := visits[i];
    TradesAllAt(c, b, visits, i);
    hide TradesAll, Follows, SettledAll, PlacedIn, CleanData, CleanVenue;
    hide Holds, AtTime, GoodBooks, CurrentFor, BothSucceed, EarnsAtVenues;
    forall e | e in v.market ensures CleanVenue(v.market[e], v.pair) && CurrentFor(v.market[e], e, v.pair, v.books) {
      CleanDataIsReplayed(v.market, data, e, v.pair);
    }
    PlacementOfVisit(c, SettledAll(b, PlacedIn(visits[..i])), v, k);
  }

  /** Every trade that a run on clean data records was filled at its advertised
      prices and earned quantity times buy price times margin, at fees of 0.1 percent. */
  lemma RecordedTradesEarnMargin(c: Config, b: Balances, data: seq<HistoricalSnapshot>, active: set<string>,
                                 visits: seq<Visit>, p: TradeRecord)
    requires Follows(c, b, visits) && SeesCleanReplay(data, active, visits) && p in Recorded(PlacedIn(visits))
    ensures EarnsMargin(p, 0.001, 0.001)
  {
    RecordedWasFilled(PlacedIn(visits), p);
    var i, k := PlacedInVisit(visits, p);
    hide Follows, Recorded, PlacedIn, SettledAll, BothSucceed, Shows, EarnsMargin, BothFilled;
    RecordedIff(c, b, data, active, visits, i, k);
    var m := visits[i].market;
    assert SeesReplay(data, active, visits[i]);
    assert FeesOf(m)[p.buyExchange] == 0.001 && FeesOf(m)[p.sellExchange] == 0.001 by {
      assert FeesOf(m) == TAKER_FEES;
    }
  }

  /** Of a whole run. */
  lemma RunEarnsMargins(c: Config, b: Balances, data: seq<HistoricalSnapshot>, active: set<string>, visits: seq<Visit>)
    requires Follows(c, b, visits) && CleanData(data) && Slots(visits) == Grid(Times(data), active)
    requires forall i :: 0 <= i < |visits| ==> SeesReplay(data, active, visits[i])
    ensures forall p :: p in Recorded(PlacedIn(visits)) ==> EarnsMargin(p, 0.001, 0.001)
  {
    RunSeesCleanReplay(data, active, visits);
    hide Follows, SeesCleanReplay, Recorded, PlacedIn, EarnsMargin;
    forall p | p in Recorded(PlacedIn(visits)) ensures EarnsMargin(p, 0.001, 0.001) {
      RecordedTradesEarnMargin(c, b, data, active, visits, p);
    }
  }

  // ----- data that is not clean -----

  /** Sizes are such that no order can break its limit. */
  ghost predicate SoundData(data: seq<HistoricalSnapshot>) {
    forall i :: 0 <= i < |data| ==> SoundSizes(data[i].bids) && SoundSizes(data[i].asks)
  }

  /** Each leg may have been filled at its limit, 0.1 percent off the advertised price. */
  ghost predicate EarnsAtLeast(p: TradeRecord, bf: real, sf: real) {
    p.realizedPnl >= p.quantity * (p.sellPrice * 0.999 * (1.0 - sf) - p.buyPrice * 1.001 * (1.0 + bf))
  }

  lemma NetOfFees(q: real, buyAvg: real, sellAvg: real, buyLimit: real, sellLimit: real, bf: real, sf: real)
    requires q > 0.0 && buyAvg <= buyLimit && sellAvg >= sellLimit && bf >= 0.0 && 0.0 <= sf <= 1.0
    ensures (sellAvg - buyAvg) * q - buyAvg * q * bf - sellAvg * q * sf
         >= q * (sellLimit * (1.0 - sf) - buyLimit * (1.0 + bf))
  {
    var sold, bought := sellAvg * (1.0 - sf), buyAvg * (1.0 + bf);
    MulMonotone(1.0 - sf, sellLimit, sellAvg);
    MulMonotone(1.0 + bf, buyAvg, buyLimit);
    MulMonotone(q, sellLimit * (1.0 - sf) - buyLimit * (1.0 + bf), sold - bought);
    assert sellAvg * q - sellAvg * q * sf == q * sold by {
      Distribute(sellAvg, 1.0, -sf);
      Distribute(q, sellAvg, -(sellAvg * sf));
      Associate(sellAvg, q, sf);
      Associate(q, sellAvg, sf);
    }
    assert buyAvg * q + buyAvg * q * bf == q * bought by {
      Distribute(buyAvg, 1.0, bf);
      Distribute(q, buyAvg, buyAvg * bf);
      Associate(buyAvg, q, bf);
      Associate(q, buyAvg, bf);
    }
    Distribute(q, sold, -bought);
  }

  function FeeOf(price: real, quantity: real, rate: real): real {
    price * quantity * rate
  }

  lemma FilledFee(b: map<string, real>, takerFee: real, levels: seq<PriceLevel>, req: OrderRequest)
    requires Outcome(b, takerFee, levels, req).status == Filled
    ensures var r := Outcome(b, takerFee, levels, req);
      r.filledQuantity == req.quantity > 0.0 && r.feePaid == FeeOf(r.avgFillPrice, req.quantity, takerFee)
  {
    OutcomeShape(b, takerFee, levels, req);
    var cost := LimitCost(req.side, levels, req.price, req.quantity);
    hide LimitCost, LimitLeft, Available, Needed;
    QuotientTimes(cost, req.quantity);
    SameTimes(cost / req.quantity * req.quantity, cost, takerFee);
  }

  lemma FilledEarnsAtLeast(m: Market, b: Balances, p: TradeRecord)
    requires PlacedOn(m, b, p) && BothFilled(p)
    requires SoundSizes(Quotes(m[p.buyExchange], Buy, p.pair)) && SoundSizes(Quotes(m[p.sellExchange], Sell, p.pair))
    requires m[p.buyExchange].takerFee >= 0.0 && 0.0 <= m[p.sellExchange].takerFee <= 1.0
    ensures EarnsAtLeast(p, m[p.buyExchange].takerFee, m[p.sellExchange].takerFee)
  {
    var bf, sf := m[p.buyExchange].takerFee, m[p.sellExchange].takerFee;
    hide Outcome, Quotes, SoundSizes, EarnsAtLeast, FeeOf, WithinLimit, PnlOfLegs;
    FilledFee(AccountOf(b, p.buyExchange), bf, Quotes(m[p.buyExchange], Buy, p.pair), Leg(Buy, p));
    FilledFee(AccountOf(b, p.sellExchange), sf, Quotes(m[p.sellExchange], Sell, p.pair), Leg(Sell, p));
    AverageWithinLimit(AccountOf(b, p.buyExchange), bf, Quotes(m[p.buyExchange], Buy, p.pair), Leg(Buy, p));
    AverageWithinLimit(AccountOf(b, p.sellExchange), sf, Quotes(m[p.sellExchange], Sell, p.pair), Leg(Sell, p));
    WithinLimitsEarns(p, bf, sf);
  }

  lemma WithinLimitsEarns(p: TradeRecord, bf: real, sf: real)
    requires p.quantity > 0.0 && bf >= 0.0 && 0.0 <= sf <= 1.0
    requires p.realizedPnl == PnlOfLegs(p.buyResult, p.sellResult)
    requires p.buyResult.filledQuantity == p.quantity && p.sellResult.filledQuantity == p.quantity
    requires p.buyResult.feePaid == FeeOf(p.buyResult.avgFillPrice, p.quantity, bf)
    requires p.sellResult.feePaid == FeeOf(p.sellResult.avgFillPrice, p.quantity, sf)
    requires WithinLimit(Leg(Buy, p), p.buyResult) && WithinLimit(Leg(Sell, p), p.sellResult)
    ensures EarnsAtLeast(p, bf, sf)
  {
    NetOfFees(p.quantity, p.buyResult.avgFillPrice, p.sellResult.avgFillPrice, p.buyPrice * 1.001,
              p.sellPrice * 0.999, bf, sf);
  }

  lemma SoundDataIsReplayed(m: Market, data: seq<HistoricalSnapshot>, e: Exchange, side: Side, pair: string)
    requires Holds(m, data) && SoundData(data) && e in m
    ensures SoundSizes(Quotes(m[e], side, pair))
  {
    hide FeesOf, Own, SoundSizes;
    var v := m[e];
    NothingIsSound();
    assert HoldsOwn(v, e, data);
    if pair in v.snapshots && pair in v.position && v.position[pair] < |v.snapshots[pair]| {
      var s := v.snapshots[pair][v.position[pair]];
      assert s in multiset(StoredFor(v.snapshots, pair));
      assert s in multiset(Own(data, e, pair));
      OwnIff(data, e, pair, s);
    }
  }

  lemma NothingIsSound()
    ensures SoundSizes([])
  {
  }

  /** Every trade that a run records on data of sound sizes, sorted or not, earns
      at least what its two limits leave after the fees. */
  lemma RecordedTradesEarnAtLeast(c: Config, b: Balances, data: seq<HistoricalSnapshot>, active: set<string>,
                                  visits: seq<Visit>, p: TradeRecord)
    requires Follows(c, b, visits) && SoundData(data) && p in Recorded(PlacedIn(visits))
    requires forall i :: 0 <= i < |visits| ==> SeesReplay(data, active, visits[i])
    ensures EarnsAtLeast(p, 0.001, 0.001)
  {
    RecordedWasFilled(PlacedIn(visits), p);
    var i, k := PlacedInVisit(visits, p);
    var v, accounts := visits[i], SettledAll(b, PlacedIn(visits[..i]));
    TradesAllAt(c, b, visits, i);
    PlacedAt(v.market, accounts, v.placed, k);
    assert SeesReplay(data, active, v);
    hide Follows, Recorded, PlacedIn, SettledAll, BothFilled, EarnsAtLeast;
    hide Current, GoodBooks, AtTime, SoundSizes, Quotes, Outcome;
    SoundDataIsReplayed(v.market, data, p.buyExchange, Buy, p.pair);
    SoundDataIsReplayed(v.market, data, p.sellExchange, Sell, p.pair);
    assert FeesOf(v.market)[p.buyExchange] == 0.001 && FeesOf(v.market)[p.sellExchange] == 0.001 by {
      assert FeesOf(v.market) == TAKER_FEES;
    }
    FilledEarnsAtLeast(v.market, SettledAll(accounts, v.placed[..k]), p);
  }

  lemma RunEarnsAtLeast(c: Config, b: Balances, data: seq<HistoricalSnapshot>, active: set<string>, visits: seq<Visit>)
    requires Follows(c, b, visits) && SoundData(data)
    requires forall i :: 0 <= i < |visits| ==> SeesReplay(data, active, visits[i])
    ensures forall p :: p in Recorded(PlacedIn(visits)) ==> EarnsAtLeast(p, 0.001, 0.001)
  {
    hide Follows, SoundData, SeesReplay, Recorded, PlacedIn, EarnsAtLeast;
    forall p | p in Recorded(PlacedIn(visits)) ensures EarnsAtLeast(p, 0.001, 0.001) {
      RecordedTradesEarnAtLeast(c, b, data, active, visits, p);
    }
  }
}
