/** Which trades a visit of a backtest places: exactly those worth placing between
    the served books, each once (src/backtest/backtest_engine.cpp). */
module BacktestTrades {
  import opened Types
  import opened RealFacts
  import opened DepthAnalyzer
  import opened Ledgers
  import opened BacktestAccounts
  import opened BacktestIntents
  import opened BacktestRuns
  import opened BacktestProfits

  /** The books cross, the quantity is worth the configured notional at the best
      ask, both sides fill it, and 20 bps below the gross spread the minimum is
      kept. Over a zero buy price the spread is infinite or undefined. */
  ghost predicate WorthPlacing(c: Config, buy: TopBook, sell: TopBook, quantity: real) {
    && buy.asks != [] && sell.bids != [] && buy.asks[0].price < sell.bids[0].price
    && buy.asks[0].price != 0.0 && quantity * buy.asks[0].price == c.minTradeUsd
    && Effective(Buy, buy.asks, quantity).fullyFillable && Effective(Sell, sell.bids, quantity).fullyFillable
    && var buyPrice, sellPrice :=
         Effective(Buy, buy.asks, quantity).avgPrice, Effective(Sell, sell.bids, quantity).avgPrice;
      if buyPrice == 0.0 then sellPrice >= 0.0
      else (sellPrice - buyPrice) / buyPrice * 10000.0 - 20.0 >= c.minNetBps
  }

  /** The prices and spreads the record of such a trade announces. */
  ghost predicate Announces(buy: TopBook, sell: TopBook, p: TradeRecord) {
    && p.buyPrice == Effective(Buy, buy.asks, p.quantity).avgPrice
    && p.sellPrice == Effective(Sell, sell.bids, p.quantity).avgPrice
    && p.netSpreadBps == p.grossSpreadBps - 20.0
    && p.grossSpreadBps == if p.buyPrice == 0.0 then 0.0 else (p.sellPrice - p.buyPrice) / p.buyPrice * 10000.0
  }

  ghost predicate OnRoute(p: TradeRecord, buy: Exchange, sell: Exchange) {
    p.buyExchange == buy && p.sellExchange == sell
  }

  ghost predicate WorthPlacingOn(c: Config, v: Visit, buy: Exchange, sell: Exchange, quantity: real) {
    && buy in {BINANCE, OKX, BYBIT} && sell in {BINANCE, OKX, BYBIT} && buy != sell
    && (buy, v.pair) in v.books && (sell, v.pair) in v.books
    && WorthPlacing(c, v.books[(buy, v.pair)], v.books[(sell, v.pair)], quantity)
  }

  /** Of the ordered pairs of served books, exactly those worth placing are placed, once each. */
  ghost predicate PlacesExactly(c: Config, v: Visit) {
    && (forall k :: 0 <= k < |v.placed| ==>
         var p := v.placed[k];
         && p.pair == v.pair && WorthPlacingOn(c, v, p.buyExchange, p.sellExchange, p.quantity)
         && Announces(v.books[(p.buyExchange, v.pair)], v.books[(p.sellExchange, v.pair)], p))
    && (forall e, x, quantity: real :: WorthPlacingOn(c, v, e, x, quantity) ==>
         exists k :: 0 <= k < |v.placed| && OnRoute(v.placed[k], e, x))
    && forall k, l :: 0 <= k < l < |v.placed| ==>
      !OnRoute(v.placed[l], v.placed[k].buyExchange, v.placed[k].sellExchange)
  }

  // ----- one ordered pair of books -----

  lemma WantedIsWorthPlacing(c: Config, buy: TopBook, sell: TopBook)
    requires Wanted(c, 0.002, buy, sell)
    ensures WorthPlacing(c, buy, sell, IntentFor(c, 0.002, "", buy, sell).quantity)
  {
    hide Effective;
    IntentIsWorthNotional(c, 0.002, "", buy, sell);
  }

  lemma WorthPlacingIsWanted(c: Config, buy: TopBook, sell: TopBook, quantity: real)
    requires WorthPlacing(c, buy, sell, quantity)
    ensures Wanted(c, 0.002, buy, sell)
  {
    hide Effective;
    QuotientIs(c.minTradeUsd, buy.asks[0].price, quantity);
  }

  lemma PlacedAnnounces(c: Config, fees: map<Exchange, real>, pair: string, buy: TopBook, sell: TopBook,
                        p: TradeRecord)
    requires fees == TAKER_FEES && ComesFrom(c, fees, pair, buy, sell, IntentOf(p))
    ensures p.pair == pair && p.buyExchange == buy.exchange && p.sellExchange == sell.exchange
    ensures p.buyExchange in {BINANCE, OKX, BYBIT} && p.sellExchange in {BINANCE, OKX, BYBIT}
    ensures WorthPlacing(c, buy, sell, p.quantity) && Announces(buy, sell, p)
  {
    assert FeeRate(fees, buy.exchange, sell.exchange) == 0.002;
    WantedIsWorthPlacing(c, buy, sell);
    IntentIsWorthNotional(c, 0.002, pair, buy, sell);
    hide Effective, LotSize;
  }

  // ----- nothing is missed -----

  /** The aggregator serves every book it has of the run's exchanges. */
  lemma ServedBookAt(books: Books, pair: string, e: Exchange) returns (i: nat)
    requires e in EXCHANGES && (e, pair) in books
    ensures i < |PairBooks(books, pair)| && PairBooks(books, pair)[i] == books[(e, pair)]
  {
    var first, second := BookOf(books, BINANCE, pair), BookOf(books, OKX, pair);
    i := if e == BINANCE then 0 else if e == OKX then |first| else |first| + |second|;
  }

  lemma {:induction false} RowMissesNothing(c: Config, fees: map<Exchange, real>, pair: string, books: seq<TopBook>,
                                            i: nat, n: nat, j: nat, t: Intent)
    requires i < |books| && n <= |books| && Charged(books, fees) && j < n && j != i
    requires t in BookIntents(c, fees, pair, books[i], books[j])
    ensures t in RowIntents(c, fees, pair, books, i, n)
  {
    hide BookIntents;
    if j < n - 1 {
      RowMissesNothing(c, fees, pair, books, i, n - 1, j, t);
    }
  }

  lemma {:induction false} PairMissesNothing(c: Config, fees: map<Exchange, real>, pair: string, books: seq<TopBook>,
                                             m: nat, i: nat, j: nat, t: Intent)
    requires m <= |books| && Charged(books, fees) && i < m && j < |books| && j != i
    requires t in BookIntents(c, fees, pair, books[i], books[j])
    ensures t in PairIntents(c, fees, pair, books, m)
  {
    hide BookIntents, RowIntents;
    if i < m - 1 {
      PairMissesNothing(c, fees, pair, books, m - 1, i, j, t);
    } else {
      RowMissesNothing(c, fees, pair, books, i, |books|, j, t);
    }
  }

  // ----- nothing is placed twice -----

  ghost predicate OneEach(ts: seq<Intent>) {
    forall k, l :: 0 <= k < l < |ts| ==>
      ts[k].buyExchange != ts[l].buyExchange || ts[k].sellExchange != ts[l].sellExchange
  }

  ghost predicate BuysAmong(ts: seq<Intent>, books: seq<TopBook>, from: nat, to: nat)
    requires to <= |books|
  {
    forall t :: t in ts ==> exists i :: from <= i < to && t.buyExchange == books[i].exchange
  }

  ghost predicate SellsAmong(ts: seq<Intent>, books: seq<TopBook>, n: nat)
    requires n <= |books|
  {
    forall t :: t in ts ==> exists j :: 0 <= j < n && t.sellExchange == books[j].exchange
  }

  ghost predicate DistinctExchanges(books: seq<TopBook>) {
    forall i, j :: 0 <= i < j < |books| ==> books[i].exchange != books[j].exchange
  }

  lemma BookIntentRoute(c: Config, fees: map<Exchange, real>, pair: string, buy: TopBook, sell: TopBook, t: Intent)
    requires buy.exchange in fees && sell.exchange in fees && t in BookIntents(c, fees, pair, buy, sell)
    ensures BookIntents(c, fees, pair, buy, sell) == [t]
    ensures t.buyExchange == buy.exchange && t.sellExchange == sell.exchange
  {
    hide Wanted, Effective, SpreadBps;
  }

  lemma {:induction false} RowOneEach(c: Config, fees: map<Exchange, real>, pair: string, books: seq<TopBook>, i: nat,
                                      n: nat)
    requires i < |books| && n <= |books| && Charged(books, fees) && DistinctExchanges(books)
    ensures var ts := RowIntents(c, fees, pair, books, i, n);
      OneEach(ts) && BuysAmong(ts, books, i, i + 1) && SellsAmong(ts, books, n)
  {
    hide BookIntents, RowIntents;
    if n == 0 {
      RowStart(c, fees, pair, books, i);
    } else {
      RowOneEach(c, fees, pair, books, i, n - 1);
      RowStep(c, fees, pair, books, i, n - 1);
      var before := RowIntents(c, fees, pair, books, i, n - 1);
      var more := BookIntents(c, fees, pair, books[i], books[n - 1]);
      if i != n - 1 && more != [] {
        BookIntentRoute(c, fees, pair, books[i], books[n - 1], more[0]);
        RowExtends(books, i, n, before, more[0]);
      }
    }
  }

  lemma RowExtends(books: seq<TopBook>, i: nat, n: nat, before: seq<Intent>, t: Intent)
    requires i < |books| && 0 < n <= |books| && DistinctExchanges(books)
    requires OneEach(before) && BuysAmong(before, books, i, i + 1) && SellsAmong(before, books, n - 1)
    requires t.buyExchange == books[i].exchange && t.sellExchange == books[n - 1].exchange
    ensures OneEach(before + [t]) && BuysAmong(before + [t], books, i, i + 1) && SellsAmong(before + [t], books, n)
  {
    forall k | 0 <= k < |before| ensures before[k].sellExchange != t.sellExchange {
      assert before[k] in before;
      var j :| 0 <= j < n - 1 && before[k].sellExchange == books[j].exchange;
    }
  }

  lemma {:induction false} PairOneEach(c: Config, fees: map<Exchange, real>, pair: string, books: seq<TopBook>, m: nat)
    requires m <= |books| && Charged(books, fees) && DistinctExchanges(books)
    ensures var ts := PairIntents(c, fees, pair, books, m); OneEach(ts) && BuysAmong(ts, books, 0, m)
  {
    hide RowIntents, DistinctExchanges, OneEach, BuysAmong, SellsAmong;
    if m == 0 {
      NoIntents(books);
    } else {
      PairOneEach(c, fees, pair, books, m - 1);
      RowOneEach(c, fees, pair, books, m - 1, |books|);
      PairExtends(books, m, PairIntents(c, fees, pair, books, m - 1),
                  RowIntents(c, fees, pair, books, m - 1, |books|));
    }
  }

  lemma NoIntents(books: seq<TopBook>)
    ensures OneEach([]) && BuysAmong([], books, 0, 0)
  {
  }

  lemma PairExtends(books: seq<TopBook>, m: nat, before: seq<Intent>, row: seq<Intent>)
    requires 0 < m <= |books| && DistinctExchanges(books) && OneEach(before) && BuysAmong(before, books, 0, m - 1)
    requires OneEach(row) && BuysAmong(row, books, m - 1, m)
    ensures OneEach(before + row) && BuysAmong(before + row, books, 0, m)
  {
    forall k, l | 0 <= k < |before| && 0 <= l < |row| ensures before[k].buyExchange != row[l].buyExchange {
      assert before[k] in before && row[l] in row;
      var i :| 0 <= i < m - 1 && before[k].buyExchange == books[i].exchange;
      assert row[l].buyExchange == books[m - 1].exchange;
    }
  }

  // ----- a visit -----

  lemma VisitPlacesWorthwhile(c: Config, b: Balances, v: Visit, k: nat)
    requires TradesAll(c, b, v) && GoodBooks(v.books) && FeesOf(v.market) == TAKER_FEES && k < |v.placed|
    ensures var p := v.placed[k];
      && p.pair == v.pair && WorthPlacingOn(c, v, p.buyExchange, p.sellExchange, p.quantity)
      && Announces(v.books[(p.buyExchange, v.pair)], v.books[(p.sellExchange, v.pair)], p)
  {
    var p, books := v.placed[k], PairBooks(v.books, v.pair);
    PlacedAt(v.market, b, v.placed, k);
    assert IntentOf(p) == Intents(v.placed)[k];
    var i, j := PairSource(c, FeesOf(v.market), v.pair, books, |books|, IntentOf(p));
    BookSource(v.books, v.pair, i);
    BookSource(v.books, v.pair, j);
    hide PairBooks, PairIntents, Intents, IntentOf, AllPlacedOn, SettledAll, GoodBooks, Charged;
    hide WorthPlacing, Announces, ComesFrom, Effective, Quotes;
    PlacedAnnounces(c, FeesOf(v.market), v.pair, books[i], books[j], p);
  }

  lemma VisitMissesNothing(c: Config, b: Balances, v: Visit, e: Exchange, x: Exchange, quantity: real) returns (k: nat)
    requires TradesAll(c, b, v) && GoodBooks(v.books) && FeesOf(v.market) == TAKER_FEES
    requires WorthPlacingOn(c, v, e, x, quantity)
    ensures k < |v.placed| && OnRoute(v.placed[k], e, x)
  {
    var books, fees := PairBooks(v.books, v.pair), FeesOf(v.market);
    var i := ServedBookAt(v.books, v.pair, e);
    var j := ServedBookAt(v.books, v.pair, x);
    assert books[i].exchange == e && books[j].exchange == x;
    WorthPlacingIsWanted(c, books[i], books[j], quantity);
    assert FeeRate(fees, e, x) == 0.002;
    hide PairBooks, WorthPlacing, Wanted, IntentFor, GoodBooks, RowIntents, AllPlacedOn, Effective;
    var t := BookIntents(c, fees, v.pair, books[i], books[j])[0];
    BookIntentRoute(c, fees, v.pair, books[i], books[j], t);
    PairMissesNothing(c, fees, v.pair, books, |books|, i, j, t);
    k :| 0 <= k < |v.placed| && Intents(v.placed)[k] == t;
  }

  lemma VisitPlacesExactly(c: Config, b: Balances, v: Visit)
    requires TradesAll(c, b, v) && GoodBooks(v.books) && FeesOf(v.market) == TAKER_FEES
    ensures PlacesExactly(c, v)
  {
    hide WorthPlacing, Announces, GoodBooks, AllPlacedOn, RowIntents, PairIntents;
    var books, fees := PairBooks(v.books, v.pair), FeesOf(v.market);
    forall k | 0 <= k < |v.placed|
      ensures var p := v.placed[k];
        && p.pair == v.pair && WorthPlacingOn(c, v, p.buyExchange, p.sellExchange, p.quantity)
        && Announces(v.books[(p.buyExchange, v.pair)], v.books[(p.sellExchange, v.pair)], p)
    {
      VisitPlacesWorthwhile(c, b, v, k);
    }
    forall e, x, quantity: real | WorthPlacingOn(c, v, e, x, quantity)
      ensures exists k :: 0 <= k < |v.placed| && OnRoute(v.placed[k], e, x)
    {
      var k := VisitMissesNothing(c, b, v, e, x, quantity);
    }
    PairBooksDistinct(v.books, v.pair);
    PairOneEach(c, fees, v.pair, books, |books|);
    forall k, l | 0 <= k < l < |v.placed|
      ensures !OnRoute(v.placed[l], v.placed[k].buyExchange, v.placed[k].sellExchange)
    {
      assert Intents(v.placed)[k] == IntentOf(v.placed[k]) && Intents(v.placed)[l] == IntentOf(v.placed[l]);
    }
  }

  lemma PairBooksDistinct(books: Books, pair: string)
    requires GoodBooks(books)
    ensures DistinctExchanges(PairBooks(books, pair))
  {
    hide GoodTop;
  }

  /** Of a whole run: at every visit exactly the trades worth placing are placed. */
  lemma RunPlacesExactly(c: Config, b: Balances, data: seq<HistoricalSnapshot>, active: set<string>,
                         visits: seq<Visit>)
    requires Follows(c, b, visits) && forall i :: 0 <= i < |visits| ==> SeesReplay(data, active, visits[i])
    ensures forall i :: 0 <= i < |visits| ==> PlacesExactly(c, visits[i])
  {
    hide TradesAll, Follows, PlacesExactly, AtTime, Current, GoodBooks, SettledAll, PlacedIn;
    forall i | 0 <= i < |visits| ensures PlacesExactly(c, visits[i]) {
      TradesAllAt(c, b, visits, i);
      VisitPlacesExactly(c, SettledAll(b, PlacedIn(visits[..i])), visits[i]);
    }
  }
}
