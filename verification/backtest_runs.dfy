/** A whole backtest run as values: the visits it makes, what each sees, and
    what the placements of all of them do (src/backtest/backtest_engine.cpp). */
module BacktestRuns {
  import opened Types
  import opened DepthWalk
  import opened PriceLevels
  import opened Ledgers
  import opened Cursors
  import opened SimulatedExchanges
  import opened BacktestReports
  import opened BacktestAccounts
  import opened BacktestIntents

  const EXCHANGES: set<Exchange> := {BINANCE, OKX, BYBIT}
  const TAKER_FEES: map<Exchange, real> := map e | e in EXCHANGES :: 0.001

  /** One pair considered at one time: what the exchanges replayed, what the
      aggregator served, and what was placed. */
  datatype Visit = Visit(timeMs: nat, pair: string, market: Market, books: Books, placed: seq<TradeRecord>)

  ghost function PlacedIn(visits: seq<Visit>): seq<TradeRecord> {
    if visits == [] then [] else PlacedIn(visits[..|visits| - 1]) + visits[|visits| - 1].placed
  }

  // ----- what a visit trades -----

  /** Exactly the wanted trades between the served books are placed, on these accounts. */
  ghost predicate TradesAll(c: Config, b: Balances, v: Visit) {
    var books, fees := PairBooks(v.books, v.pair), FeesOf(v.market);
    && AllPlacedOn(v.market, b, v.placed)
    && Charged(books, fees) && Intents(v.placed) == PairIntents(c, fees, v.pair, books, |books|)
  }

  /** Every visit trades on the accounts the earlier ones left. */
  ghost predicate Follows(c: Config, b: Balances, visits: seq<Visit>) {
    visits == []
    || (Follows(c, b, visits[..|visits| - 1])
        && TradesAll(c, SettledAll(b, PlacedIn(visits[..|visits| - 1])), visits[|visits| - 1]))
  }

  lemma FollowsMore(c: Config, b: Balances, visits: seq<Visit>, v: Visit)
    requires Follows(c, b, visits) && TradesAll(c, SettledAll(b, PlacedIn(visits)), v)
    ensures Follows(c, b, visits + [v]) && PlacedIn(visits + [v]) == PlacedIn(visits) + v.placed
    ensures SettledAll(b, PlacedIn(visits + [v])) == SettledAll(SettledAll(b, PlacedIn(visits)), v.placed)
    ensures Recorded(PlacedIn(visits + [v])) == Recorded(PlacedIn(visits)) + Recorded(v.placed)
  {
    hide TradesAll, SettledAll, Recorded;
    assert (visits + [v])[..|visits|] == visits;
    SettledConcat(b, PlacedIn(visits), v.placed);
    RecordedConcat(PlacedIn(visits), v.placed);
  }

  lemma {:induction false} FollowsIsWellPlaced(c: Config, b: Balances, visits: seq<Visit>)
    requires Follows(c, b, visits)
    ensures AllWellPlaced(PlacedIn(visits))
  {
    hide AllPlacedOn, WellPlaced, SettledAll, Charged, PairIntents, Intents;
    if visits != [] {
      var before, v := visits[..|visits| - 1], visits[|visits| - 1];
      FollowsIsWellPlaced(c, b, before);
      AllPlacedAreWellPlaced(v.market, SettledAll(b, PlacedIn(before)), v.placed);
    }
  }

  /** The ledger identity over a whole run. */
  lemma RunLedgerIdentity(c: Config, b: Balances, visits: seq<Visit>, quote: string, base: string)
    requires Follows(c, b, visits) && OneQuote(PlacedIn(visits), quote) && base != quote
    ensures var placed := PlacedIn(visits);
      var after := SettledAll(b, placed);
      && AssetTotal(after, quote) - AssetTotal(b, quote)
         == Equity(Recorded(placed), |Recorded(placed)|) + SumCash(Unrecorded(placed))
      && AssetTotal(after, base) - AssetTotal(b, base) == SumGoods(Unrecorded(placed), base)
  {
    hide Follows, AssetTotal, SettledAll, Equity, SumCash, SumGoods, Recorded, Unrecorded, OneQuote, AllWellPlaced;
    FollowsIsWellPlaced(c, b, visits);
    LedgerIdentity(b, PlacedIn(visits), quote, base);
  }

  // ----- what a visit sees -----

  /** An exchange holds its own snapshots of the data, each pair's in time order. */
  ghost predicate HoldsOwn(v: Venue, e: Exchange, data: seq<HistoricalSnapshot>) {
    && (forall p :: p in v.snapshots ==> InTimeOrder(v.snapshots[p]))
    && (forall p :: multiset(StoredFor(v.snapshots, p)) == multiset(Own(data, e, p)))
  }

  ghost predicate Holds(m: Market, data: seq<HistoricalSnapshot>) {
    FeesOf(m) == TAKER_FEES && forall e :: e in m ==> HoldsOwn(m[e], e, data)
  }

  /** Every pair is where a search from scratch would be. */
  ghost predicate VenueAt(v: Venue, t: nat) {
    forall p :: p in v.snapshots ==> p in v.position && v.position[p] == Seek(v.snapshots[p], t)
  }

  ghost predicate VenueNotAfter(v: Venue, t: nat) {
    forall p :: p in v.snapshots ==> p in v.position && v.position[p] <= Seek(v.snapshots[p], t)
  }

  ghost predicate AtTime(m: Market, t: nat) {
    forall e :: e in m ==> VenueAt(m[e], t)
  }

  ghost predicate NotAfter(m: Market, t: nat) {
    forall e :: e in m ==> VenueNotAfter(m[e], t)
  }

  lemma LaterIsNotAfter(m: Market, data: seq<HistoricalSnapshot>, t: nat, u: nat)
    requires Holds(m, data) && AtTime(m, t) && t <= u
    ensures NotAfter(m, u)
  {
    hide Own, Seek, FeesOf, StoredFor;
    forall e, p | e in m && p in m[e].snapshots
      ensures p in m[e].position && m[e].position[p] <= Seek(m[e].snapshots[p], u) {
      assert HoldsOwn(m[e], e, data) && VenueAt(m[e], t);
      SeekMonotone(m[e].snapshots[p], t, u);
    }
  }

  /** Only the positions of an exchange have changed. */
  ghost predicate Moved(before: Venue, after: Venue) {
    after.takerFee == before.takerFee && after.snapshots == before.snapshots
  }

  lemma MovedHolds(before: Market, after: Market, data: seq<HistoricalSnapshot>)
    requires Holds(before, data) && after.Keys == before.Keys
    requires forall e :: e in before ==> Moved(before[e], after[e])
    ensures Holds(after, data)
  {
    hide Own, InTimeOrder, StoredFor;
    assert FeesOf(after) == FeesOf(before);
  }

  /** fetch_order_book at depth 20. */
  ghost function Replayed(v: Venue, side: Side, pair: string): seq<PriceLevel> {
    var levels := Quotes(v, side, pair);
    levels[..MinNat(DEPTH, |levels|)]
  }

  ghost predicate IsReplayed(v: Venue, pair: string, book: TopBook) {
    && IsSnapshotOf(true, book.bids, Replayed(v, Sell, pair))
    && IsSnapshotOf(false, book.asks, Replayed(v, Buy, pair))
  }

  ghost predicate Shows(v: Venue, pair: string) {
    Replayed(v, Sell, pair) != [] || Replayed(v, Buy, pair) != []
  }

  ghost predicate CurrentFor(v: Venue, e: Exchange, pair: string, books: Books) {
    Shows(v, pair) ==> (e, pair) in books && IsReplayed(v, pair, books[(e, pair)])
  }

  /** Every replayed book that shows anything is the one served. */
  ghost predicate Current(m: Market, active: set<string>, books: Books) {
    forall e, p :: e in m && p in active ==> CurrentFor(m[e], e, p, books)
  }

  /** What has changed is a replayed book; nothing is dropped. */
  ghost predicate Refreshed(m: Market, active: set<string>, before: Books, after: Books) {
    && (forall k :: k in before ==> k in after)
    && forall k :: k in after ==>
      (k in before && after[k] == before[k])
      || (k.0 in m && k.1 in active && Shows(m[k.0], k.1) && IsReplayed(m[k.0], k.1, after[k]))
  }

  ghost predicate SeesReplay(data: seq<HistoricalSnapshot>, active: set<string>, v: Visit) {
    && Holds(v.market, data) && AtTime(v.market, v.timeMs)
    && GoodBooks(v.books) && Current(v.market, active, v.books)
  }

  lemma {:induction false} OwnIff(data: seq<HistoricalSnapshot>, id: Exchange, pair: string, s: HistoricalSnapshot)
    ensures s in Own(data, id, pair) <==> s in data && s.exchange == id && s.pair == pair
  {
    if data != [] {
      OwnIff(data[..|data| - 1], id, pair, s);
      assert s in data <==> s in data[..|data| - 1] || s == data[|data| - 1];
    }
  }

  /** Once the data holds an exchange's snapshots of a pair, what is served is the
      latest of them up to now, if it has any level; only before the pair's first
      snapshot is it one from the future. */
  lemma ServedIsLatest(data: seq<HistoricalSnapshot>, active: set<string>, v: Visit, e: Exchange)
    returns (s: HistoricalSnapshot)
    requires SeesReplay(data, active, v) && e in v.market && v.pair in active
    requires exists u :: u in data && u.exchange == e && u.pair == v.pair
    ensures s in data && s.exchange == e && s.pair == v.pair
    ensures s.bids != [] || s.asks != [] ==>
      && (e, v.pair) in v.books
      && IsSnapshotOf(true, v.books[(e, v.pair)].bids, s.bids[..MinNat(20, |s.bids|)])
      && IsSnapshotOf(false, v.books[(e, v.pair)].asks, s.asks[..MinNat(20, |s.asks|)])
    ensures forall u :: u in data && u.exchange == e && u.pair == v.pair && u.timestampMs <= v.timeMs ==>
      u.timestampMs <= s.timestampMs <= v.timeMs
  {
    hide FeesOf, Own, IsSnapshotOf, Seek, GoodBooks, StoredFor, InTimeOrder;
    assert HoldsOwn(v.market[e], e, data) && VenueAt(v.market[e], v.timeMs);
    assert CurrentFor(v.market[e], e, v.pair, v.books);
    var stored := StoredFor(v.market[e].snapshots, v.pair);
    var first :| first in data && first.exchange == e && first.pair == v.pair;
    OwnIff(data, e, v.pair, first);
    assert first in multiset(Own(data, e, v.pair)) && first in multiset(stored);
    StoredIs(v.market[e].snapshots, v.pair);
    LooksAheadIff(stored, v.timeMs);
    s := stored[Seek(stored, v.timeMs)];
    assert s in multiset(stored) && s in multiset(Own(data, e, v.pair));
    OwnIff(data, e, v.pair, s);
    forall u | u in data && u.exchange == e && u.pair == v.pair && u.timestampMs <= v.timeMs
      ensures u.timestampMs <= s.timestampMs <= v.timeMs
    {
      OwnIff(data, e, v.pair, u);
      assert u in multiset(Own(data, e, v.pair)) && u in multiset(stored);
      SeekIsLatest(stored, v.timeMs, u);
    }
  }

  lemma StoredIs(snapshots: map<string, seq<HistoricalSnapshot>>, pair: string)
    requires StoredFor(snapshots, pair) != []
    ensures pair in snapshots && StoredFor(snapshots, pair) == snapshots[pair]
  {
  }

  lemma SeekIsLatest(stored: seq<HistoricalSnapshot>, t: nat, u: HistoricalSnapshot)
    requires InTimeOrder(stored) && u in stored && u.timestampMs <= t
    ensures Seek(stored, t) < |stored| && u.timestampMs <= stored[Seek(stored, t)].timestampMs <= t
  {
    hide Seek;
    LooksAheadIff(stored, t);
    var i :| 0 <= i < |stored| && stored[i] == u;
  }

  lemma RefreshOne(m: Market, active: set<string>, before: Books, books: Books, e: Exchange, pair: string,
                   book: TopBook)
    requires e in m && pair in active && Shows(m[e], pair) && IsReplayed(m[e], pair, book)
    requires Refreshed(m, active, before, books) && GoodBooks(books) && GoodTop(book) && book.exchange == e
    ensures var next := books[(e, pair) := book];
      && Refreshed(m, active, before, next) && GoodBooks(next) && CurrentFor(m[e], e, pair, next)
      && forall x, p :: x in m && (x, p) != (e, pair) && CurrentFor(m[x], x, p, books) ==> CurrentFor(m[x], x, p, next)
  {
    hide IsReplayed, Shows, GoodTop;
  }

  lemma NothingRefreshed(m: Market, active: set<string>, books: Books)
    ensures Refreshed(m, active, books, books)
  {
  }

  // ----- when the visits happen -----

  ghost function Times(data: seq<HistoricalSnapshot>): set<nat> {
    set i | 0 <= i < |data| :: data[i].timestampMs
  }

  ghost predicate IsActive(c: Config, data: seq<HistoricalSnapshot>, pair: string) {
    (exists i :: 0 <= i < |data| && data[i].pair == pair) && (c.pairs == [] || pair in c.pairs)
  }

  /** Every active pair at every given time. */
  ghost function Grid(times: set<nat>, active: set<string>): set<(nat, string)> {
    set t, p | t in times && p in active :: (t, p)
  }

  ghost function Slots(visits: seq<Visit>): set<(nat, string)> {
    set i | 0 <= i < |visits| :: (visits[i].timeMs, visits[i].pair)
  }

  ghost predicate InOrder(visits: seq<Visit>) {
    forall i, j :: 0 <= i < j < |visits| ==>
      visits[i].timeMs < visits[j].timeMs || (visits[i].timeMs == visits[j].timeMs && visits[i].pair != visits[j].pair)
  }

  lemma SlotsMore(visits: seq<Visit>, v: Visit)
    ensures Slots(visits + [v]) == Slots(visits) + {(v.timeMs, v.pair)}
  {
    var more := visits + [v];
    forall s | s in Slots(visits) + {(v.timeMs, v.pair)} ensures s in Slots(more) {
      if s in Slots(visits) {
        var i :| 0 <= i < |visits| && s == (visits[i].timeMs, visits[i].pair);
        assert more[i] == visits[i];
      } else {
        assert more[|visits|] == v;
      }
    }
  }
}
