/** The replay loop: place both legs of every spread found, and keep the trades
    whose legs both filled (src/backtest/backtest_engine.cpp). */
module BacktestEngines {
  import opened Types
  import opened RealFacts
  import opened DepthAnalyzer
  import opened PriceLevels
  import opened Ledgers
  import opened Cursors
  import opened SimulatedExchanges
  import opened BacktestReports
  import opened BacktestAccounts
  import opened BacktestIntents
  import opened BacktestRuns
  import opened BacktestProfits
  import opened BacktestTrades
  import opened DepthWalk

  // ----- the exchanges of a run -----

  type Sims = map<Exchange, SimulatedExchange>

  ghost function Objects(sims: Sims): set<object> {
    set e | e in sims :: sims[e]
  }

  ghost function BalancesOf(sims: Sims): Balances
    reads Objects(sims)
  {
    map e | e in sims :: sims[e].balances
  }

  ghost function MarketOf(sims: Sims): Market
    reads Objects(sims)
  {
    map e | e in sims :: VenueOf(sims[e])
  }

  ghost function VenueOf(sim: SimulatedExchange): Venue
    reads sim
  {
    Venue(sim.takerFee, sim.snapshots, sim.currentIndex)
  }

  /** Every exchange is filed under its own name, so that they are distinct objects. */
  ghost predicate GoodSims(sims: Sims)
    reads Objects(sims)
  {
    forall e :: e in sims ==> sims[e].id == e && sims[e].Valid()
  }

  /** The balances every run starts from. */
  ghost function InitialAccounts(c: Config): Balances {
    map e | e in EXCHANGES :: c.initialBalances
  }

  /** Each of the three exchanges starts with the whole configured balances. */
  lemma StartsWithThrice(c: Config, asset: string)
    ensures forall e :: e in {BINANCE, OKX, BYBIT} ==> AccountOf(InitialAccounts(c), e) == c.initialBalances
    ensures AssetTotal(InitialAccounts(c), asset) == 3.0 * Amount(c.initialBalances, asset)
  {
    var b := InitialAccounts(c);
    forall e: Exchange
      ensures Balance(b, e, asset) == if e in EXCHANGES then Amount(c.initialBalances, asset) else 0.0 {
    }
  }

  /** Just loaded, with every pair at its first snapshot. */
  ghost predicate Loaded(sim: SimulatedExchange, id: Exchange, c: Config, data: seq<HistoricalSnapshot>)
    reads sim
  {
    && sim.Valid() && sim.id == id && sim.takerFee == 0.001 && sim.balances == c.initialBalances
    && HoldsOwn(VenueOf(sim), id, data) && forall t :: VenueNotAfter(VenueOf(sim), t)
  }

  method NewExchange(id: Exchange, c: Config, makerFee: real, data: seq<HistoricalSnapshot>)
    returns (sim: SimulatedExchange)
    ensures fresh(sim) && Loaded(sim, id, c, data)
  {
    hide Own, InTimeOrder;
    sim := new SimulatedExchange(id, c.initialBalances, makerFee, 0.001);
    sim.LoadSnapshots(data);
    forall p ensures multiset(StoredFor(sim.snapshots, p)) == multiset(Own(data, id, p)) {
      assert [] + Own(data, id, p) == Own(data, id, p);
    }
  }

  /** The three exchanges of a backtest, with their fees and the data loaded. */
  method NewExchanges(c: Config, data: seq<HistoricalSnapshot>) returns (sims: Sims)
    ensures sims.Keys == EXCHANGES && forall e :: e in sims ==> fresh(sims[e])
    ensures forall e :: e in sims ==> Loaded(sims[e], e, c, data)
  {
    hide Loaded;
    var binance := NewExchange(BINANCE, c, 0.001, data);
    var okx := NewExchange(OKX, c, 0.0008, data);
    var bybit := NewExchange(BYBIT, c, 0.001, data);
    sims := map[BINANCE := binance, OKX := okx, BYBIT := bybit];
  }

  lemma LoadedAccounts(sims: Sims, c: Config, data: seq<HistoricalSnapshot>)
    requires sims.Keys == EXCHANGES
    requires forall e :: e in sims ==> Loaded(sims[e], e, c, data)
    ensures GoodSims(sims) && BalancesOf(sims) == InitialAccounts(c)
    ensures FeesOf(MarketOf(sims)) == TAKER_FEES
  {
    hide HoldsOwn, VenueNotAfter, SimulatedExchange.Valid;
  }

  lemma LoadedMarket(sims: Sims, c: Config, data: seq<HistoricalSnapshot>)
    requires forall e :: e in sims ==> Loaded(sims[e], e, c, data)
    requires FeesOf(MarketOf(sims)) == TAKER_FEES
    ensures Holds(MarketOf(sims), data) && forall t :: NotAfter(MarketOf(sims), t)
  {
    hide HoldsOwn, VenueNotAfter, SimulatedExchange.Valid, FeesOf;
    forall e | e in sims
      ensures HoldsOwn(MarketOf(sims)[e], e, data) && forall t :: VenueNotAfter(MarketOf(sims)[e], t) {
      assert Loaded(sims[e], e, c, data);
    }
  }

  method AdvanceExchange(sim: SimulatedExchange, t: nat)
    requires sim.Valid() && VenueNotAfter(VenueOf(sim), t)
    modifies sim`currentTimeMs, sim`currentIndex
    ensures sim.Valid() && Moved(old(VenueOf(sim)), VenueOf(sim)) && VenueAt(VenueOf(sim), t)
  {
    hide InTimeOrder, Seek;
    sim.AdvanceTo(t);
  }

  method AdvanceOne(sims: Sims, e: Exchange, t: nat)
    requires GoodSims(sims) && e in sims && VenueNotAfter(MarketOf(sims)[e], t)
    modifies {sims[e]}`currentTimeMs, {sims[e]}`currentIndex
    ensures GoodSims(sims) && BalancesOf(sims) == old(BalancesOf(sims))
    ensures Moved(old(MarketOf(sims))[e], MarketOf(sims)[e]) && VenueAt(MarketOf(sims)[e], t)
    ensures MarketOf(sims) == old(MarketOf(sims))[e := MarketOf(sims)[e]]
  {
    hide SimulatedExchange.Valid, VenueOf, VenueAt, VenueNotAfter, Moved;
    ghost var b, m := BalancesOf(sims), MarketOf(sims);
    AdvanceExchange(sims[e], t);
    assert BalancesOf(sims) == b;
    assert MarketOf(sims) == m[e := VenueOf(sims[e])];
  }

  /** Every exchange advances to the time. */
  method AdvanceAll(sims: Sims, data: seq<HistoricalSnapshot>, t: nat)
    requires GoodSims(sims) && Holds(MarketOf(sims), data) && NotAfter(MarketOf(sims), t)
    modifies (set e | e in sims :: sims[e])`currentTimeMs, (set e | e in sims :: sims[e])`currentIndex
    ensures GoodSims(sims) && BalancesOf(sims) == old(BalancesOf(sims))
    ensures Holds(MarketOf(sims), data) && AtTime(MarketOf(sims), t)
  {
    hide GoodSims, Holds, VenueNotAfter, VenueAt;
    ghost var b, m := BalancesOf(sims), MarketOf(sims);
    assert m.Keys == sims.Keys;
    hide BalancesOf, MarketOf;
    var pending := sims.Keys;
    while pending != {}
      invariant pending <= sims.Keys && GoodSims(sims)
      invariant BalancesOf(sims) == b && MarketOf(sims).Keys == sims.Keys
      invariant forall e :: e in pending ==> MarketOf(sims)[e] == m[e]
      invariant forall e :: e in sims ==> Moved(m[e], MarketOf(sims)[e])
      invariant forall e :: e in sims.Keys - pending ==> VenueAt(MarketOf(sims)[e], t)
      decreases pending
    {
      var e :| e in pending;
      AdvanceOne(sims, e, t);
      pending := pending - {e};
    }
    MovedHolds(m, MarketOf(sims), data);
  }

  /** One replayed book as the aggregator would serve it, if it shows anything:
      it has no more levels than were replayed, so serving 20 cuts nothing off. */
  method PublishBook(sim: SimulatedExchange, pair: string) returns (r: Option<TopBook>)
    requires sim.Valid()
    ensures r.Some? <==> Shows(VenueOf(sim), pair)
    ensures r.Some? ==> GoodTop(r.value) && r.value.exchange == sim.id && IsReplayed(VenueOf(sim), pair, r.value)
  {
    hide IsSnapshotOf, GoodSide, InTimeOrder;
    var bids, asks := sim.FetchOrderBook(pair, DEPTH);
    assert bids == Replayed(VenueOf(sim), Sell, pair) && asks == Replayed(VenueOf(sim), Buy, pair);
    if bids == [] && asks == [] {
      return None;
    }
    var bidSide := SnapshotSide(true, bids);
    var askSide := SnapshotSide(false, asks);
    r := Some(TopBook(sim.id, bidSide, askSide));
  }

  /** The books of one exchange are brought up to date. */
  method ServeExchange(sim: SimulatedExchange, ghost m: Market, active: set<string>, ghost before: Books, books: Books)
    returns (served: Books)
    requires sim.Valid() && sim.id in m && m[sim.id] == VenueOf(sim)
    requires Refreshed(m, active, before, books) && GoodBooks(books)
    ensures Refreshed(m, active, before, served) && GoodBooks(served)
    ensures forall p :: p in active ==> CurrentFor(m[sim.id], sim.id, p, served)
    ensures forall e, p :: e in m && e != sim.id && CurrentFor(m[e], e, p, books) ==> CurrentFor(m[e], e, p, served)
  {
    hide SimulatedExchange.Valid, VenueOf, Refreshed, GoodBooks, GoodTop, IsReplayed, Replayed;
    served := books;
    var pending := active;
    while pending != {}
      invariant pending <= active && Refreshed(m, active, before, served) && GoodBooks(served)
      invariant forall p :: p in active - pending ==> CurrentFor(m[sim.id], sim.id, p, served)
      invariant forall e, p :: e in m && e != sim.id && CurrentFor(m[e], e, p, books) ==> CurrentFor(m[e], e, p, served)
      decreases pending
    {
      var p :| p in pending;
      var book := PublishBook(sim, p);
      if book.Some? {
        RefreshOne(m, active, before, served, sim.id, p, book.value);
        served := served[(sim.id, p) := book.value];
      }
      pending := pending - {p};
    }
  }

  /** The aggregator takes over what the exchanges now replay. */
  method ServeBooks(sims: Sims, active: set<string>, books: Books) returns (served: Books)
    requires GoodSims(sims) && GoodBooks(books)
    ensures Refreshed(MarketOf(sims), active, books, served)
    ensures GoodBooks(served) && Current(MarketOf(sims), active, served)
  {
    hide SimulatedExchange.Valid, VenueOf, Refreshed, GoodBooks, CurrentFor;
    ghost var m := MarketOf(sims);
    NothingRefreshed(m, active, books);
    served := books;
    var pending := sims.Keys;
    while pending != {}
      invariant pending <= sims.Keys && MarketOf(sims) == m && Refreshed(m, active, books, served) && GoodBooks(served)
      invariant forall e, p :: e in sims.Keys - pending && p in active ==> CurrentFor(m[e], e, p, served)
      decreases pending
    {
      var e :| e in pending;
      served := ServeExchange(sims[e], m, active, books, served);
      pending := pending - {e};
    }
  }

  /** The first element of an ordered set. */
  method Earliest(pending: set<nat>) returns (t: nat)
    requires pending != {}
    ensures t in pending && forall u :: u in pending ==> t <= u
  {
    t :| t in pending;
    var rest := pending;
    while rest != {}
      invariant rest <= pending && t in pending
      invariant forall u :: u in pending ==> u in rest || t <= u
      decreases rest
    {
      var u :| u in rest;
      t := MinNat(t, u);
      rest := rest - {u};
    }
  }

  // ----- the engine -----

  class BacktestEngine {
    const config: Config
    var trades: seq<TradeRecord>

    constructor (config: Config)
      ensures this.config == config && trades == []
    {
      this.config := config;
      trades := [];
    }

    /** One order on one exchange of the run. */
    static method PlaceLeg(sims: Sims, req: OrderRequest) returns (r: OrderResult)
      requires GoodSims(sims) && req.exchange in sims
      modifies {sims[req.exchange]}`balances
      ensures GoodSims(sims) && MarketOf(sims) == old(MarketOf(sims))
      ensures r == Outcome(old(BalancesOf(sims))[req.exchange], MarketOf(sims)[req.exchange].takerFee,
                           Quotes(MarketOf(sims)[req.exchange], req.side, req.pair), req)
      ensures BalancesOf(sims)
           == old(BalancesOf(sims))[req.exchange := AfterOrder(old(BalancesOf(sims))[req.exchange], req, r)]
    {
      hide Outcome, AfterOrder, InTimeOrder;
      ghost var b := BalancesOf(sims);
      ghost var m := MarketOf(sims);
      var sim := sims[req.exchange];
      assert sim.CurrentLevels(req.side, req.pair) == Quotes(m[req.exchange], req.side, req.pair);
      hide Quotes;
      r := sim.PlaceLimitOrder(req);
      assert MarketOf(sims) == m;
      assert BalancesOf(sims) == b[req.exchange := AfterOrder(b[req.exchange], req, r)];
    }

    /** Places the two legs of an intent and records their results. */
    method PlaceLegs(sims: Sims, t: Intent) returns (record: TradeRecord)
      requires GoodSims(sims) && t.buyExchange in sims && t.sellExchange in sims && t.buyExchange != t.sellExchange
      modifies (set e | e in sims :: sims[e])`balances
      ensures GoodSims(sims) && MarketOf(sims) == old(MarketOf(sims))
      ensures IntentOf(record) == t && PlacedOn(MarketOf(sims), old(BalancesOf(sims)), record)
      ensures BalancesOf(sims) == Settled(old(BalancesOf(sims)), record)
    {
      hide Outcome, AfterOrder, PnlOfLegs, Quotes, GoodSims;
      ghost var b := BalancesOf(sims);
      ghost var m := MarketOf(sims);
      assert m.Keys == b.Keys == sims.Keys;
      hide BalancesOf, MarketOf;
      var buyResult := PlaceLeg(sims, OrderRequest(t.buyExchange, t.pair, Buy, t.buyPrice * 1.001, t.quantity));
      var sellResult := PlaceLeg(sims, OrderRequest(t.sellExchange, t.pair, Sell, t.sellPrice * 0.999, t.quantity));
      record := TradeRecord(t.pair, t.buyExchange, t.sellExchange, t.buyPrice, t.sellPrice, t.quantity,
                            t.grossSpreadBps, t.netSpreadBps, buyResult, sellResult, PnlOfLegs(buyResult, sellResult));
    }

    /** What the engine would trade between two books. */
    method FindIntent(feeRate: real, pair: string, buy: TopBook, sell: TopBook) returns (t: Option<Intent>)
      ensures t.Some? <==> Wanted(config, feeRate, buy, sell)
      ensures t.Some? ==> t.value == IntentFor(config, feeRate, pair, buy, sell)
      ensures t.Some? ==> buy.asks != [] && t.value.quantity * buy.asks[0].price == config.minTradeUsd
    {
      hide Effective, LotSize, SpreadBps;
      if buy.asks == [] || sell.bids == [] {
        return None;
      }
      var bestAsk, bestBid := buy.asks[0].price, sell.bids[0].price;
      if bestBid <= bestAsk || bestAsk == 0.0 {
        return None;
      }
      var quantity := LotSize(config.minTradeUsd, bestAsk);
      var effBuy := EffectiveBuyPrice(buy.asks, quantity);
      var effSell := EffectiveSellPrice(sell.bids, quantity);
      if !effBuy.fullyFillable || !effSell.fullyFillable
        || !SpreadSuffices(config, feeRate, effBuy.avgPrice, effSell.avgPrice)
      {
        return None;
      }
      var grossBps := if effBuy.avgPrice == 0.0 then 0.0 else SpreadBps(effBuy.avgPrice, effSell.avgPrice);
      t := Some(Intent(pair, buy.exchange, sell.exchange, effBuy.avgPrice, effSell.avgPrice, quantity,
                       grossBps, grossBps - feeRate * 10000.0));
      IntentIsWorthNotional(config, feeRate, pair, buy, sell);
    }

    /** One ordered pair of books: nothing, or one placement. */
    method ConsiderPair(sims: Sims, pair: string, buy: TopBook, sell: TopBook) returns (placed: seq<TradeRecord>)
      requires GoodSims(sims)
      requires buy.exchange in sims && sell.exchange in sims && buy.exchange != sell.exchange
      modifies this`trades, (set e | e in sims :: sims[e])`balances
      ensures GoodSims(sims) && MarketOf(sims) == old(MarketOf(sims))
      ensures Intents(placed) == BookIntents(config, FeesOf(MarketOf(sims)), pair, buy, sell)
      ensures AllPlacedOn(MarketOf(sims), old(BalancesOf(sims)), placed)
      ensures BalancesOf(sims) == SettledAll(old(BalancesOf(sims)), placed)
      ensures trades == old(trades) + Recorded(placed)
    {
      hide GoodTop, Wanted, IntentFor, Recorded, Intents, IntentOf, AllPlacedOn, PlacedOn, SettledAll, Settled;
      hide GoodSims, BalancesOf, MarketOf, FeesOf, BookIntents, BothFilled;
      Apart(this, sims);
      ghost var b, m := BalancesOf(sims), MarketOf(sims);
      NonePlaced(m, b);
      placed := [];
      var feeRate := sims[buy.exchange].takerFee + sims[sell.exchange].takerFee;
      BookIntentsOf(config, sims, feeRate, pair, buy, sell);
      var t := FindIntent(feeRate, pair, buy, sell);
      if t.Some? {
        var record := PlaceLegs(sims, t.value);
        placed := [record];
        OnePlaced(m, b, record);
        if BothFilled(record) {
          trades := trades + [record];
        }
      }
    }

    /** The ordered pairs that buy on one book. */
    method TradeRow(sims: Sims, pair: string, books: seq<TopBook>, i: nat) returns (placed: seq<TradeRecord>)
      requires GoodSims(sims) && i < |books| && Tradable(sims.Keys, books)
      modifies this`trades, (set e | e in sims :: sims[e])`balances
      ensures GoodSims(sims) && MarketOf(sims) == old(MarketOf(sims))
      ensures Intents(placed) == RowIntents(config, FeesOf(MarketOf(sims)), pair, books, i, |books|)
      ensures AllPlacedOn(MarketOf(sims), old(BalancesOf(sims)), placed)
      ensures BalancesOf(sims) == SettledAll(old(BalancesOf(sims)), placed)
      ensures trades == old(trades) + Recorded(placed)
    {
      hide GoodTop, RowIntents, BookIntents, Recorded, Intents, AllPlacedOn, SettledAll, GoodSims, BalancesOf;
      ghost var b, m, before := BalancesOf(sims), MarketOf(sims), trades;
      assert m.Keys == sims.Keys;
      hide MarketOf;
      NonePlaced(m, b);
      TradableIsCharged(m, books);
      RowStart(config, FeesOf(m), pair, books, i);
      hide FeesOf, Tradable, Charged;
      placed := [];
      for j := 0 to |books|
        invariant GoodSims(sims) && MarketOf(sims) == m
        invariant Intents(placed) == RowIntents(config, FeesOf(m), pair, books, i, j)
        invariant AllPlacedOn(m, b, placed) && BalancesOf(sims) == SettledAll(b, placed)
        invariant trades == before + Recorded(placed)
      {
        RowStep(config, FeesOf(m), pair, books, i, j);
        TwoBooks(sims.Keys, books, i, j);
        if i == j {
          continue;
        }
        var more := ConsiderPair(sims, pair, books[i], books[j]);
        PlacedMore(m, b, placed, more);
        placed := placed + more;
      }
    }

    /** All ordered pairs of the books served for one pair. */
    method TradePair(sims: Sims, pair: string, books: seq<TopBook>) returns (placed: seq<TradeRecord>)
      requires GoodSims(sims) && Tradable(sims.Keys, books)
      modifies this`trades, (set e | e in sims :: sims[e])`balances
      ensures GoodSims(sims) && MarketOf(sims) == old(MarketOf(sims))
      ensures Intents(placed) == PairIntents(config, FeesOf(MarketOf(sims)), pair, books, |books|)
      ensures AllPlacedOn(MarketOf(sims), old(BalancesOf(sims)), placed)
      ensures BalancesOf(sims) == SettledAll(old(BalancesOf(sims)), placed)
      ensures trades == old(trades) + Recorded(placed)
    {
      hide GoodTop, RowIntents, Recorded, Intents, AllPlacedOn, SettledAll, GoodSims, BalancesOf;
      ghost var b, m := BalancesOf(sims), MarketOf(sims);
      NonePlaced(m, b);
      placed := [];
      if |books| < 2 {
        FewBooks(config, FeesOf(m), pair, books);
        return;
      }
      for i := 0 to |books|
        invariant GoodSims(sims) && MarketOf(sims) == m
        invariant Intents(placed) == PairIntents(config, FeesOf(m), pair, books, i)
        invariant AllPlacedOn(m, b, placed) && BalancesOf(sims) == SettledAll(b, placed)
        invariant trades == old(trades) + Recorded(placed)
      {
        var more := TradeRow(sims, pair, books, i);
        PlacedMore(m, b, placed, more);
        placed := placed + more;
      }
    }

    /** What has been traded so far is what the visits placed. */
    ghost predicate Traded(sims: Sims, b: Balances, visits: seq<Visit>)
      reads this, Objects(sims)
    {
      && GoodSims(sims) && Follows(config, b, visits)
      && BalancesOf(sims) == SettledAll(b, PlacedIn(visits))
      && trades == Recorded(PlacedIn(visits))
    }

    /** One visit. */
    method VisitPair(sims: Sims, t: nat, pair: string, books: Books, ghost b: Balances, ghost visits: seq<Visit>)
      returns (ghost v: Visit)
      requires Traded(sims, b, visits) && GoodBooks(books) && forall k :: k in books ==> k.0 in sims
      modifies this`trades, (set e | e in sims :: sims[e])`balances
      ensures Traded(sims, b, visits + [v]) && MarketOf(sims) == old(MarketOf(sims))
      ensures v.timeMs == t && v.pair == pair && v.books == books && v.market == MarketOf(sims)
    {
      hide GoodSims, BalancesOf, Follows, SettledAll, AllPlacedOn, Intents;
      hide PairIntents, GoodBooks, Tradable, PairBooks, Recorded, PlacedIn;
      ghost var m := MarketOf(sims);
      assert m.Keys == sims.Keys;
      hide MarketOf;
      PairBooksTradable(sims.Keys, books, pair);
      TradableIsCharged(m, PairBooks(books, pair));
      var placed := TradePair(sims, pair, PairBooks(books, pair));
      v := Visit(t, pair, m, books, placed);
      FollowsMore(config, b, visits, v);
    }

    /** All active pairs at one time. */
    method VisitAll(sims: Sims, data: seq<HistoricalSnapshot>, t: nat, active: set<string>, books: Books,
                    ghost b: Balances, ghost before: seq<Visit>) returns (ghost visits: seq<Visit>)
      requires Traded(sims, b, before) && (forall k :: k in books ==> k.0 in sims)
      requires Holds(MarketOf(sims), data) && AtTime(MarketOf(sims), t)
      requires GoodBooks(books) && Current(MarketOf(sims), active, books)
      requires InOrder(before) && forall i :: 0 <= i < |before| ==>
        before[i].timeMs < t && SeesReplay(data, active, before[i])
      modifies this`trades, (set e | e in sims :: sims[e])`balances
      ensures Traded(sims, b, visits) && MarketOf(sims) == old(MarketOf(sims))
      ensures InOrder(visits) && forall i :: 0 <= i < |visits| ==>
        visits[i].timeMs <= t && SeesReplay(data, active, visits[i])
      ensures Slots(visits) == Slots(before) + Grid({t}, active)
    {
      hide Traded, GoodSims, Holds, AtTime, GoodBooks, Current, Slots;
      ghost var m := MarketOf(sims);
      hide MarketOf;
      visits := before;
      var pending := active;
      while pending != {}
        invariant pending <= active && Traded(sims, b, visits) && MarketOf(sims) == m
        invariant InOrder(visits) && forall i :: 0 <= i < |visits| ==>
          visits[i].timeMs <= t && SeesReplay(data, active, visits[i])
        invariant forall i :: 0 <= i < |visits| && visits[i].timeMs == t ==> visits[i].pair !in pending
        invariant Slots(visits) == Slots(before) + Grid({t}, active - pending)
        decreases pending
      {
        var p :| p in pending;
        ghost var v := VisitPair(sims, t, p, books, b, visits);
        SlotsMore(visits, v);
        assert Grid({t}, active - (pending - {p})) == Grid({t}, active - pending) + {(t, p)};
        visits := visits + [v];
        pending := pending - {p};
      }
      assert active - {} == active;
    }

    /** One time: the exchanges advance, the books follow, the pairs are visited. */
    method VisitTime(sims: Sims, data: seq<HistoricalSnapshot>, t: nat, active: set<string>, books: Books,
                     ghost b: Balances, ghost before: seq<Visit>) returns (served: Books, ghost visits: seq<Visit>)
      requires Traded(sims, b, before) && Holds(MarketOf(sims), data) && NotAfter(MarketOf(sims), t)
      requires GoodBooks(books) && (forall k :: k in books ==> k.0 in sims)
      requires InOrder(before) && forall i :: 0 <= i < |before| ==>
        before[i].timeMs < t && SeesReplay(data, active, before[i])
      modifies this`trades, (set e | e in sims :: sims[e])`balances,
               (set e | e in sims :: sims[e])`currentTimeMs, (set e | e in sims :: sims[e])`currentIndex
      ensures Traded(sims, b, visits) && Holds(MarketOf(sims), data) && AtTime(MarketOf(sims), t)
      ensures GoodBooks(served) && (forall k :: k in served ==> k.0 in sims)
      ensures InOrder(visits) && forall i :: 0 <= i < |visits| ==>
        visits[i].timeMs <= t && SeesReplay(data, active, visits[i])
      ensures Slots(visits) == Slots(before) + Grid({t}, active)
    {
      hide GoodSims, Holds, AtTime, NotAfter, GoodBooks, Current, Slots, Grid, Recorded, InOrder, SeesReplay;
      hide Follows, SettledAll, PlacedIn, Replayed, Shows, IsReplayed;
      assert MarketOf(sims).Keys == sims.Keys;
      hide BalancesOf;
      AdvanceAll(sims, data, t);
      assert forall o :: o in Objects(sims) ==> allocated(o);
      served := ServeBooks(sims, active, books);
      visits := VisitAll(sims, data, t, active, served, b, before);
    }

    method VisitTimes(sims: Sims, data: seq<HistoricalSnapshot>, active: set<string>, ghost b: Balances)
      returns (ghost visits: seq<Visit>)
      requires Traded(sims, b, []) && Holds(MarketOf(sims), data)
      requires forall t :: NotAfter(MarketOf(sims), t)
      modifies this`trades, (set e | e in sims :: sims[e])`balances,
               (set e | e in sims :: sims[e])`currentTimeMs, (set e | e in sims :: sims[e])`currentIndex
      ensures Traded(sims, b, visits) && InOrder(visits) && Slots(visits) == Grid(Times(data), active)
      ensures forall i :: 0 <= i < |visits| ==> SeesReplay(data, active, visits[i])
    {
      hide Traded, GoodSims, Holds, AtTime, NotAfter, GoodBooks, Slots, InOrder, SeesReplay, MarketOf;
      visits := [];
      NoVisits();
      var times := set i | 0 <= i < |data| :: data[i].timestampMs;
      var books: Books := map[];
      var pending := times;
      while pending != {}
        invariant pending <= times && Traded(sims, b, visits) && InOrder(visits)
        invariant Holds(MarketOf(sims), data) && forall u :: u in pending ==> NotAfter(MarketOf(sims), u)
        invariant GoodBooks(books) && forall k :: k in books ==> k.0 in sims
        invariant forall i :: 0 <= i < |visits| ==> SeesReplay(data, active, visits[i])
        invariant forall i, u :: 0 <= i < |visits| && u in pending ==> visits[i].timeMs < u
        invariant Slots(visits) == Grid(times - pending, active)
        decreases pending
      {
        assert forall o :: o in Objects(sims) ==> allocated(o);
        var t := Earliest(pending);
        books, visits := VisitTime(sims, data, t, active, books, b, visits);
        forall u | u in pending && u != t ensures NotAfter(MarketOf(sims), u) {
          LaterIsNotAfter(MarketOf(sims), data, t, u);
        }
        assert Grid(times - (pending - {t}), active) == Grid(times - pending, active) + Grid({t}, active);
        pending := pending - {t};
      }
      assert times - {} == times;
    }

    /** The whole run. The visits show what it did. */
    method Run(data: seq<HistoricalSnapshot>) returns (m: Metrics, ghost visits: seq<Visit>, ghost active: set<string>)
      modifies this`trades
      ensures forall p :: p in active <==> IsActive(config, data, p)
      ensures InOrder(visits) && Slots(visits) == Grid(Times(data), active)
      ensures forall i :: 0 <= i < |visits| ==> SeesReplay(data, active, visits[i])
      ensures Follows(config, InitialAccounts(config), visits)
      ensures forall i :: 0 <= i < |visits| ==> PlacesExactly(config, visits[i])
      ensures trades == Recorded(PlacedIn(visits))
      ensures m.totalTrades == |trades| && m.totalPnl == Equity(trades, |trades|)
      ensures IsMaxDrawdown(trades, |trades|, m.maxDrawdown) && PairsUpTo(trades, |trades|, m.pnlPerPair)
      ensures CleanData(data) ==> forall p :: p in trades ==> EarnsMargin(p, 0.001, 0.001)
      ensures SoundData(data) ==> forall p :: p in trades ==> EarnsAtLeast(p, 0.001, 0.001)
    {
      hide Holds, NotAfter, Slots, Recorded, Loaded, InOrder, SeesReplay;
      hide Grid, Times, Follows, PlacedIn, GoodSims, BalancesOf, MarketOf;
      trades := [];
      var sims := NewExchanges(config, data);
      StartOfRun(this, sims, data);
      var allPairs := set i | 0 <= i < |data| :: data[i].pair;
      var pairs := if config.pairs == [] then allPairs else set p | p in config.pairs && p in allPairs;
      active := pairs;
      visits := VisitTimes(sims, data, pairs, InitialAccounts(config));
      hide CleanData, SoundData, EarnsMargin, EarnsAtLeast, PlacesExactly;
      RunPlacesExactly(config, InitialAccounts(config), data, active, visits);
      if CleanData(data) {
        RunEarnsMargins(config, InitialAccounts(config), data, active, visits);
      }
      if SoundData(data) {
        RunEarnsAtLeast(config, InitialAccounts(config), data, active, visits);
      }
      m := ComputeMetrics(trades);
    }
  }

  lemma NoVisits()
    ensures InOrder([]) && Slots([]) == {} && GoodBooks(map[])
  {
  }

  lemma StartOfRun(engine: BacktestEngine, sims: Sims, data: seq<HistoricalSnapshot>)
    requires sims.Keys == EXCHANGES && engine.trades == []
    requires forall e :: e in sims ==> Loaded(sims[e], e, engine.config, data)
    ensures engine.Traded(sims, InitialAccounts(engine.config), [])
    ensures Holds(MarketOf(sims), data) && forall t :: NotAfter(MarketOf(sims), t)
  {
    hide Loaded, Holds, NotAfter, GoodSims;
    LoadedAccounts(sims, engine.config, data);
    LoadedMarket(sims, engine.config, data);
  }

  lemma Apart(engine: BacktestEngine, sims: Sims)
    ensures engine !in Objects(sims)
  {
  }

  lemma BookIntentsOf(c: Config, sims: Sims, feeRate: real, pair: string, buy: TopBook, sell: TopBook)
    requires buy.exchange in sims && sell.exchange in sims
    requires feeRate == sims[buy.exchange].takerFee + sims[sell.exchange].takerFee
    ensures buy.exchange in FeesOf(MarketOf(sims)) && sell.exchange in FeesOf(MarketOf(sims))
    ensures BookIntents(c, FeesOf(MarketOf(sims)), pair, buy, sell)
         == if Wanted(c, feeRate, buy, sell) then [IntentFor(c, feeRate, pair, buy, sell)] else []
    ensures Wanted(c, feeRate, buy, sell) ==>
      var t := IntentFor(c, feeRate, pair, buy, sell); t.buyExchange == buy.exchange && t.sellExchange == sell.exchange
  {
    hide Wanted, Effective, LotSize, SpreadBps;
  }

  lemma NonePlaced(m: Market, b: Balances)
    ensures Intents([]) == [] && Recorded([]) == [] && AllPlacedOn(m, b, []) && SettledAll(b, []) == b
  {
  }

  lemma OnePlaced(m: Market, b: Balances, p: TradeRecord)
    ensures Intents([p]) == [IntentOf(p)]
    ensures Recorded([p]) == if BothFilled(p) then [p] else []
    ensures AllPlacedOn(m, b, [p]) <==> PlacedOn(m, b, p)
    ensures SettledAll(b, [p]) == Settled(b, p)
  {
    hide PlacedOn, Settled;
    assert [p][..0] == [];
  }

  lemma PlacedMore(m: Market, b: Balances, placed: seq<TradeRecord>, more: seq<TradeRecord>)
    requires AllPlacedOn(m, b, placed) && AllPlacedOn(m, SettledAll(b, placed), more)
    ensures AllPlacedOn(m, b, placed + more) && SettledAll(b, placed + more) == SettledAll(SettledAll(b, placed), more)
    ensures Recorded(placed + more) == Recorded(placed) + Recorded(more)
    ensures Intents(placed + more) == Intents(placed) + Intents(more)
  {
    PlacedConcat(m, b, placed, more);
    SettledConcat(b, placed, more);
    RecordedConcat(placed, more);
    IntentsConcat(placed, more);
  }
}
