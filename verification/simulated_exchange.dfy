/** The replayed exchange of a backtest (src/backtest/simulated_exchange.cpp). */
module SimulatedExchanges {
  import opened Types
  import opened RealFacts
  import opened DepthWalk
  import opened LimitOrders
  import opened Cursors
  import opened Assets

  const DEFAULT_QUOTE := "USD"

  function Quote(pair: string): string {
    QuoteAsset(pair, DEFAULT_QUOTE)
  }

  lemma DashlessQuote(pair: string)
    requires '-' !in pair
    ensures BaseAsset(pair) == pair && Quote(pair) == "USD"
  {
    DashlessPair(pair, DEFAULT_QUOTE);
  }

  function Amount(b: map<string, real>, asset: string): real {
    if asset in b then b[asset] else 0.0
  }

  function Credit(b: map<string, real>, asset: string, delta: real): map<string, real> {
    b[asset := Amount(b, asset) + delta]
  }

  // ----- one order as a value -----

  function Needed(req: OrderRequest): real {
    if req.side == Buy then req.price * req.quantity else req.quantity
  }

  function Available(b: map<string, real>, req: OrderRequest): real {
    Amount(b, if req.side == Buy then Quote(req.pair) else BaseAsset(req.pair))
  }

  /** What a walk that filled `filled` for `cost` reports. */
  function FillReport(filled: real, cost: real, quantity: real, takerFee: real): OrderResult {
    if filled <= 0.0 then OrderResult(Open, 0.0, 0.0, 0.0)
    else OrderResult(if filled >= quantity then Filled else PartiallyFilled, filled, cost / filled, cost * takerFee)
  }

  function Outcome(b: map<string, real>, takerFee: real, levels: seq<PriceLevel>, req: OrderRequest): OrderResult {
    if levels == [] || Available(b, req) < Needed(req) then REJECTED_RESULT
    else
      FillReport(req.quantity - LimitLeft(req.side, levels, req.price, req.quantity),
                 LimitCost(req.side, levels, req.price, req.quantity), req.quantity, takerFee)
  }

  /** The base and quote amounts an order result moves. */
  function Goods(side: Side, r: OrderResult): real {
    if side == Buy then r.filledQuantity else -r.filledQuantity
  }

  function Cash(side: Side, r: OrderResult): real {
    var traded := r.avgFillPrice * r.filledQuantity;
    (if side == Buy then -traded else traded) - r.feePaid
  }

  function AfterOrder(b: map<string, real>, req: OrderRequest, r: OrderResult): map<string, real> {
    if r.filledQuantity <= 0.0 then b
    else Credit(Credit(b, BaseAsset(req.pair), Goods(req.side, r)), Quote(req.pair), Cash(req.side, r))
  }

  lemma {:induction false} LeftIsShortfall(side: Side, levels: seq<PriceLevel>, limit: real, wanted: real)
    ensures wanted > 0.0 ==> LimitLeft(side, levels, limit, wanted) >= 0.0
    ensures wanted <= 0.0 ==> wanted - LimitLeft(side, levels, limit, wanted) <= 0.0
  {
    hide Admits;
    if levels != [] && Admits(side, limit, levels[0].price) && wanted > levels[0].quantity {
      LeftIsShortfall(side, levels[1..], limit, wanted - levels[0].quantity);
    }
  }

  /** Whatever the book, the status says how much of the order was traded, and
      only results that traded carry money. */
  lemma OutcomeShape(b: map<string, real>, takerFee: real, levels: seq<PriceLevel>, req: OrderRequest)
    ensures var r := Outcome(b, takerFee, levels, req);
      && 0.0 <= r.filledQuantity
      && (r.filledQuantity > 0.0 ==> r.filledQuantity <= req.quantity)
      && (r.status == Filled <==> r.filledQuantity == req.quantity > 0.0)
      && (r.status == PartiallyFilled <==> 0.0 < r.filledQuantity < req.quantity)
      && (r.status == Open || r.status == Rejected <==> r.filledQuantity == 0.0)
      && (r.filledQuantity == 0.0 ==> Cash(req.side, r) == 0.0)
  {
    LeftIsShortfall(req.side, levels, req.price, req.quantity);
  }

  /** Which orders are rejected, and what the others trade: the walk over the levels
      within the limit, at its cost, with the fee on that cost whether or not the
      whole request was filled. */
  lemma OrderPays(b: map<string, real>, takerFee: real, levels: seq<PriceLevel>, req: OrderRequest)
    ensures var r, reached := Outcome(b, takerFee, levels, req), Reachable(req.side, levels, req.price);
      var asset := if req.side == Buy then Quote(req.pair) else BaseAsset(req.pair);
      var needed := if req.side == Buy then req.price * req.quantity else req.quantity;
      var filled, cost := req.quantity - Remaining(reached, req.quantity), Cost(reached, req.quantity);
      && (r.status == Rejected <==> levels == [] || (if asset in b then b[asset] else 0.0) < needed)
      && (r.status == Open <==> r.status != Rejected && filled <= 0.0)
      && (r.filledQuantity > 0.0 ==>
           && r.filledQuantity == filled && r.avgFillPrice * r.filledQuantity == cost
           && r.feePaid == r.avgFillPrice * r.filledQuantity * takerFee)
  {
    var reached := Reachable(req.side, levels, req.price);
    var filled, cost := req.quantity - LimitLeft(req.side, levels, req.price, req.quantity),
                        LimitCost(req.side, levels, req.price, req.quantity);
    hide LimitLeft, LimitCost, BaseAsset, QuoteAsset, Remaining, Cost, Reachable;
    CoveredIff(b, req);
    hide Available, Needed;
    if req.quantity > 0.0 {
      LimitWalkIsWalk(req.side, levels, req.price, req.quantity);
    } else {
      LeftIsShortfall(req.side, levels, req.price, req.quantity);
      NoStep(reached, req.quantity);
    }
    if filled > 0.0 {
      FeeOnCost(filled, cost, req.quantity, takerFee);
    }
  }

  lemma CoveredIff(b: map<string, real>, req: OrderRequest)
    ensures var asset := if req.side == Buy then Quote(req.pair) else BaseAsset(req.pair);
      Available(b, req) == (if asset in b then b[asset] else 0.0)
    ensures Needed(req) == if req.side == Buy then req.price * req.quantity else req.quantity
  {
  }

  lemma FeeOnCost(filled: real, cost: real, quantity: real, takerFee: real)
    requires filled > 0.0
    ensures var r := FillReport(filled, cost, quantity, takerFee);
      r.avgFillPrice * r.filledQuantity == cost && r.feePaid == r.avgFillPrice * r.filledQuantity * takerFee
  {
    QuotientTimes(cost, filled);
    SameTimes(cost / filled * filled, cost, takerFee);
  }

  /** In money: on an exchange whose quote asset is not the base, the walk's cost and
      the fee on it leave or reach the quote balance, and the fill the base balance. */
  lemma OrderSettles(b: map<string, real>, takerFee: real, levels: seq<PriceLevel>, req: OrderRequest)
    requires Outcome(b, takerFee, levels, req).filledQuantity > 0.0 && BaseAsset(req.pair) != Quote(req.pair)
    ensures var after := AfterOrder(b, req, Outcome(b, takerFee, levels, req));
      var reached, base, quote := Reachable(req.side, levels, req.price), BaseAsset(req.pair), Quote(req.pair);
      var filled, cost := req.quantity - Remaining(reached, req.quantity), Cost(reached, req.quantity);
      && base in after && quote in after && after.Keys == b.Keys + {base, quote}
      && after[base] == Amount(b, base) + (if req.side == Buy then filled else -filled)
      && after[quote] == Amount(b, quote) + (if req.side == Buy then -cost else cost) - cost * takerFee
      && forall asset :: asset in b && asset != base && asset != quote ==> after[asset] == b[asset]
  {
    hide Outcome, BaseAsset, QuoteAsset, Remaining, Cost, Reachable;
    var r, reached := Outcome(b, takerFee, levels, req), Reachable(req.side, levels, req.price);
    OrderPays(b, takerFee, levels, req);
    SameTimes(r.avgFillPrice * r.filledQuantity, Cost(reached, req.quantity), takerFee);
  }

  /** The balances change by what the result says, and by nothing else. */
  lemma OrderMoves(b: map<string, real>, takerFee: real, levels: seq<PriceLevel>, req: OrderRequest, asset: string)
    ensures var r := Outcome(b, takerFee, levels, req);
      Amount(AfterOrder(b, req, r), asset) == Amount(b, asset)
        + (if asset == BaseAsset(req.pair) then Goods(req.side, r) else 0.0)
        + (if asset == Quote(req.pair) then Cash(req.side, r) else 0.0)
  {
    hide Outcome, BaseAsset, QuoteAsset;
    OutcomeShape(b, takerFee, levels, req);
  }

  /** In money: what a walk that filled something paid or received, less the fee. */
  lemma CashIsCost(side: Side, filled: real, cost: real, quantity: real, takerFee: real)
    requires filled > 0.0
    ensures var r := FillReport(filled, cost, quantity, takerFee);
      Cash(side, r) == (if side == Buy then -(cost + r.feePaid) else cost - r.feePaid)
  {
    QuotientTimes(cost, filled);
  }

  /** The average price is no worse than the limit. */
  predicate WithinLimit(req: OrderRequest, r: OrderResult) {
    if req.side == Buy then r.avgFillPrice <= req.price else r.avgFillPrice >= req.price
  }

  /** On a book of sound sizes the average of an order that trades is no worse than its limit. */
  lemma AverageWithinLimit(b: map<string, real>, takerFee: real, levels: seq<PriceLevel>, req: OrderRequest)
    requires SoundSizes(levels)
    requires Outcome(b, takerFee, levels, req).filledQuantity > 0.0
    ensures WithinLimit(req, Outcome(b, takerFee, levels, req))
  {
    hide BaseAsset, QuoteAsset, LimitLeft, LimitCost;
    var filled := req.quantity - LimitLeft(req.side, levels, req.price, req.quantity);
    var cost := LimitCost(req.side, levels, req.price, req.quantity);
    OutcomeShape(b, takerFee, levels, req);
    SoundOrderRespectsLimit(req.side, levels, req.price, req.quantity);
    if req.side == Buy {
      AtMostByCost(req.price, cost, filled);
    } else {
      AtLeastByCost(req.price, cost, filled);
    }
  }

  /** At all positive prices, for all accounts, fees and orders of one side. */
  ghost predicate AveragesWithinLimits(side: Side, book: seq<PriceLevel>) {
    forall b, takerFee: real, levels, req: OrderRequest ::
      SameSizes(levels, book) && PositivePrices(levels) && req.side == side
      && Outcome(b, takerFee, levels, req).filledQuantity > 0.0 ==>
        WithinLimit(req, Outcome(b, takerFee, levels, req))
  }

  /** And exactly on such books is that so at all prices. */
  lemma AverageWithinLimitIff(side: Side, book: seq<PriceLevel>)
    ensures AveragesWithinLimits(side, book) <==> SoundSizes(book)
  {
    hide Outcome, WithinLimit;
    if SoundSizes(book) {
      forall b, takerFee: real, levels, req: OrderRequest |
        SameSizes(levels, book) && PositivePrices(levels) && req.side == side
        && Outcome(b, takerFee, levels, req).filledQuantity > 0.0
        ensures WithinLimit(req, Outcome(b, takerFee, levels, req))
      {
        SameSizesAreSound(levels, book);
        AverageWithinLimit(b, takerFee, levels, req);
      }
    } else {
      var m, i :| 0 <= i < m <= |book| && DepthWalk.Total(book[..m]) > 0.0 && book[i].quantity < 0.0;
      var levels, wanted := BrokenLimit(side, book, m, i);
      var b, req := BrokenOrder(side, levels, wanted);
    }
  }

  /** An account that covers the order which breaks its limit. */
  lemma BrokenOrder(side: Side, levels: seq<PriceLevel>, wanted: real) returns (b: map<string, real>, req: OrderRequest)
    requires levels != [] && !OrderRespectsLimit(side, levels, 1.0, wanted)
    requires wanted - LimitLeft(side, levels, 1.0, wanted) <= wanted
    ensures req.side == side && Outcome(b, 0.0, levels, req).filledQuantity > 0.0
    ensures !WithinLimit(req, Outcome(b, 0.0, levels, req))
  {
    hide BaseAsset, QuoteAsset, LimitLeft, LimitCost;
    req := OrderRequest(BINANCE, "BTC-USDT", side, 1.0, wanted);
    b := map[(if side == Buy then Quote(req.pair) else BaseAsset(req.pair)) := wanted];
    var filled, cost := wanted - LimitLeft(side, levels, 1.0, wanted), LimitCost(side, levels, 1.0, wanted);
    assert if side == Buy then cost > filled else cost < filled;
    assert Available(b, req) == wanted == Needed(req);
    assert Outcome(b, 0.0, levels, req) == FillReport(filled, cost, wanted, 0.0);
    hide Outcome, OrderRespectsLimit, RespectsLimit;
    AverageBeyondOne(cost, filled);
  }

  lemma AverageBeyondOne(cost: real, filled: real)
    requires filled > 0.0
    ensures cost > filled <==> cost / filled > 1.0
    ensures cost < filled <==> cost / filled < 1.0
  {
    QuotientTimes(cost, filled);
    if cost / filled <= 1.0 {
      MulMonotone(filled, cost / filled, 1.0);
    }
    if cost / filled >= 1.0 {
      MulMonotone(filled, 1.0, cost / filled);
    }
  }

  /** The balance check leaves out the fee, so a buy can take the quote balance
      below zero, by at most the fee; a sell never takes the base balance below
      zero. Prices may have any sign and the book any order. */
  lemma OrderIsSafe(b: map<string, real>, takerFee: real, levels: seq<PriceLevel>, req: OrderRequest)
    requires SoundSizes(levels) && BaseAsset(req.pair) != Quote(req.pair)
    requires Outcome(b, takerFee, levels, req).filledQuantity > 0.0
    ensures var r := Outcome(b, takerFee, levels, req);
      var after := AfterOrder(b, req, r);
      && (req.side == Buy ==> Amount(after, Quote(req.pair)) >= Min(0.0, Amount(b, Quote(req.pair))) - r.feePaid)
      && (req.side == Sell ==> Amount(after, BaseAsset(req.pair)) >= 0.0)
  {
    OutcomeShape(b, takerFee, levels, req);
    OrderMoves(b, takerFee, levels, req, Quote(req.pair));
    OrderMoves(b, takerFee, levels, req, BaseAsset(req.pair));
    if req.side == Buy {
      BuyCoversCost(b, takerFee, levels, req);
    }
  }

  lemma BuyCoversCost(b: map<string, real>, takerFee: real, levels: seq<PriceLevel>, req: OrderRequest)
    requires SoundSizes(levels) && req.side == Buy
    requires Outcome(b, takerFee, levels, req).filledQuantity > 0.0
    ensures var r := Outcome(b, takerFee, levels, req);
      var available := Amount(b, Quote(req.pair));
      available + Cash(Buy, r) >= Min(0.0, available) - r.feePaid
  {
    hide BaseAsset, QuoteAsset, LimitLeft, LimitCost, Cash;
    var filled := req.quantity - LimitLeft(Buy, levels, req.price, req.quantity);
    var cost := LimitCost(Buy, levels, req.price, req.quantity);
    OutcomeShape(b, takerFee, levels, req);
    assert Available(b, req) >= Needed(req);
    assert Outcome(b, takerFee, levels, req) == FillReport(filled, cost, req.quantity, takerFee);
    SoundOrderRespectsLimit(Buy, levels, req.price, req.quantity);
    CashIsCost(Buy, filled, cost, req.quantity, takerFee);
    CoveredWithinLimit(Available(b, req), req.price, filled, req.quantity, cost);
    hide Outcome, FillReport, RespectsLimit, OrderRespectsLimit, Needed;
  }

  lemma CoveredWithinLimit(available: real, limit: real, filled: real, quantity: real, cost: real)
    requires 0.0 <= filled <= quantity && cost <= limit * filled && available >= limit * quantity
    ensures available - cost >= Min(0.0, available)
  {
    if limit >= 0.0 {
      MulMonotone(limit, filled, quantity);
    } else {
      MulMonotone(filled, limit, 0.0);
    }
  }

  /** Negative sizes break both: a buy limited to 10 pays 14.50, and the account
      that covered 20 ends at -9 before any fee. */
  lemma NegativeSizeBreaksOrder(b: map<string, real>)
    requires Amount(b, "USDT") == 20.0
    ensures var asks := [PriceLevel(1.0, -1.0), PriceLevel(10.0, 5.0)];
      var req := OrderRequest(BINANCE, "BTC-USDT", Buy, 10.0, 2.0);
      var r := Outcome(b, 0.0, asks, req);
      && r == OrderResult(Filled, 2.0, 14.5, 0.0)
      && Amount(AfterOrder(b, req, r), "USDT") == -9.0
  {
    var asks := [PriceLevel(1.0, -1.0), PriceLevel(10.0, 5.0)];
    var req := OrderRequest(BINANCE, "BTC-USDT", Buy, 10.0, 2.0);
    PairAssets("BTC", "USDT", DEFAULT_QUOTE);
    assert "BTC" + "-" + "USDT" == "BTC-USDT";
    assert BaseAsset("BTC-USDT") == "BTC" && Quote("BTC-USDT") == "USDT";
    hide BaseAsset, QuoteAsset, LimitLeft, LimitCost;
    NegativeSizeBreaksLimit();
    OrderMoves(b, 0.0, asks, req, "USDT");
  }

  // ----- loading -----

  ghost function Own(data: seq<HistoricalSnapshot>, id: Exchange, pair: string): seq<HistoricalSnapshot> {
    if data == [] then []
    else
      var last := data[|data| - 1];
      Own(data[..|data| - 1], id, pair) + if last.exchange == id && last.pair == pair then [last] else []
  }

  function StoredFor(snapshots: map<string, seq<HistoricalSnapshot>>, pair: string): seq<HistoricalSnapshot> {
    if pair in snapshots then snapshots[pair] else []
  }

  /** The first loop of load_snapshots: own snapshots are appended to their pair's list. */
  function Group(before: map<string, seq<HistoricalSnapshot>>, data: seq<HistoricalSnapshot>, id: Exchange)
    : map<string, seq<HistoricalSnapshot>>
  {
    if data == [] then before
    else
      var g, last := Group(before, data[..|data| - 1], id), data[|data| - 1];
      if last.exchange == id then g[last.pair := StoredFor(g, last.pair) + [last]] else g
  }

  lemma {:induction false} GroupEntry(before: map<string, seq<HistoricalSnapshot>>, data: seq<HistoricalSnapshot>,
                                      id: Exchange, pair: string)
    ensures StoredFor(Group(before, data, id), pair) == StoredFor(before, pair) + Own(data, id, pair)
    ensures pair in Group(before, data, id) ==> pair in before || StoredFor(Group(before, data, id), pair) != []
  {
    if data != [] {
      GroupEntry(before, data[..|data| - 1], id, pair);
    }
  }

  method GroupByPair(before: map<string, seq<HistoricalSnapshot>>, data: seq<HistoricalSnapshot>, id: Exchange)
    returns (grouped: map<string, seq<HistoricalSnapshot>>)
    ensures grouped == Group(before, data, id)
  {
    grouped := before;
    for i := 0 to |data|
      invariant grouped == Group(before, data[..i], id)
    {
      var snap := data[i];
      assert data[..i + 1][..i] == data[..i];
      if snap.exchange == id {
        grouped := grouped[snap.pair := StoredFor(grouped, snap.pair) + [snap]];
      }
    }
    assert data[..|data|] == data;
  }

  /** Where a snapshot belongs after all the earlier or equally late ones. */
  method PlaceInTime(r: seq<HistoricalSnapshot>, t: nat) returns (k: nat)
    ensures k <= |r|
    ensures k > 0 ==> r[k - 1].timestampMs <= t
    ensures forall m :: k <= m < |r| ==> r[m].timestampMs > t
  {
    k := |r|;
    while k > 0 && r[k - 1].timestampMs > t
      invariant 0 <= k <= |r|
      invariant forall m :: k <= m < |r| ==> r[m].timestampMs > t
    {
      k := k - 1;
    }
  }

  /** Stands for the library sort: in time order, a permutation, nothing more. */
  method SortByTime(snaps: seq<HistoricalSnapshot>) returns (r: seq<HistoricalSnapshot>)
    ensures InTimeOrder(r) && multiset(r) == multiset(snaps) && |r| == |snaps|
  {
    hide InTimeOrder;
    r := [];
    NothingInTime();
    for i := 0 to |snaps|
      invariant InTimeOrder(r) && |r| == i
      invariant multiset(r) == multiset(snaps[..i])
    {
      var k := PlaceInTime(r, snaps[i].timestampMs);
      InsertInTime(r, k, snaps[i]);
      assert snaps[..i + 1] == snaps[..i] + [snaps[i]];
      r := r[..k] + [snaps[i]] + r[k..];
    }
    assert snaps[..|snaps|] == snaps;
  }

  lemma InsertInTime(r: seq<HistoricalSnapshot>, k: nat, snap: HistoricalSnapshot)
    requires InTimeOrder(r) && k <= |r|
    requires k > 0 ==> r[k - 1].timestampMs <= snap.timestampMs
    requires forall m :: k <= m < |r| ==> r[m].timestampMs > snap.timestampMs
    ensures InTimeOrder(r[..k] + [snap] + r[k..])
    ensures multiset(r[..k] + [snap] + r[k..]) == multiset(r) + multiset{snap}
  {
    InsertPermutes(r, k, snap);
    SlicesInTime(r, k);
    assert InTimeOrder([snap]);
    hide InTimeOrder;
    JoinInTime(r[..k], [snap]);
    JoinInTime(r[..k] + [snap], r[k..]);
  }

  lemma NothingInTime()
    ensures InTimeOrder([])
  {
  }

  lemma SlicesInTime(r: seq<HistoricalSnapshot>, k: nat)
    requires InTimeOrder(r) && k <= |r|
    ensures InTimeOrder(r[..k]) && InTimeOrder(r[k..])
  {
  }

  lemma InsertPermutes(r: seq<HistoricalSnapshot>, k: nat, snap: HistoricalSnapshot)
    requires k <= |r|
    ensures multiset(r[..k] + [snap] + r[k..]) == multiset(r) + multiset{snap}
  {
    assert r == r[..k] + r[k..];
  }

  lemma JoinInTime(a: seq<HistoricalSnapshot>, b: seq<HistoricalSnapshot>)
    requires InTimeOrder(a) && InTimeOrder(b)
    requires a != [] && b != [] ==> a[|a| - 1].timestampMs <= b[0].timestampMs
    ensures InTimeOrder(a + b)
  {
    var w := a + b;
    forall i, j | 0 <= i < j < |w| ensures w[i].timestampMs <= w[j].timestampMs {
      if i < |a| <= j {
        assert w[i] == a[i] && w[j] == b[j - |a|];
        assert a[i].timestampMs <= a[|a| - 1].timestampMs;
        assert b[0].timestampMs <= b[j - |a|].timestampMs;
      }
    }
  }

  // ----- the object -----

  class SimulatedExchange {
    const id: Exchange
    const makerFee: real
    const takerFee: real
    var balances: map<string, real>
    var snapshots: map<string, seq<HistoricalSnapshot>>
    var currentIndex: map<string, nat>
    var currentTimeMs: nat

    ghost predicate Valid()
      reads this
    {
      && snapshots.Keys == currentIndex.Keys
      && forall p :: p in snapshots ==> InTimeOrder(snapshots[p]) && currentIndex[p] < |snapshots[p]|
    }

    constructor (id: Exchange, initialBalances: map<string, real>, makerFee: real, takerFee: real)
      ensures Valid() && balances == initialBalances && snapshots == map[]
      ensures this.id == id && this.takerFee == takerFee && this.makerFee == makerFee
    {
      this.id, this.makerFee, this.takerFee := id, makerFee, takerFee;
      balances := initialBalances;
      snapshots, currentIndex, currentTimeMs := map[], map[], 0;
    }

    /** Keeps the snapshots of this exchange only, each pair's in time order,
        and rewinds every pair. */
    method LoadSnapshots(data: seq<HistoricalSnapshot>)
      requires Valid()
      modifies this`snapshots, this`currentIndex
      ensures Valid()
      ensures forall p :: multiset(StoredFor(snapshots, p)) == multiset(StoredFor(old(snapshots), p) + Own(data, id, p))
      ensures forall p :: p in currentIndex ==> currentIndex[p] == 0
    {
      hide Group, InTimeOrder;
      var grouped := GroupByPair(snapshots, data, id);
      forall p | p in grouped ensures grouped[p] != [] {
        GroupEntry(snapshots, data, id, p);
      }
      var sorted := SortAll(grouped);
      forall p ensures multiset(StoredFor(sorted, p)) == multiset(StoredFor(snapshots, p) + Own(data, id, p)) {
        GroupEntry(snapshots, data, id, p);
      }
      snapshots := sorted;
      currentIndex := map p | p in sorted :: 0;
    }

    static method SortAll(grouped: map<string, seq<HistoricalSnapshot>>)
      returns (sorted: map<string, seq<HistoricalSnapshot>>)
      ensures sorted.Keys == grouped.Keys
      ensures forall p :: p in sorted ==>
        InTimeOrder(sorted[p]) && multiset(sorted[p]) == multiset(grouped[p]) && |sorted[p]| == |grouped[p]|
    {
      hide InTimeOrder;
      sorted := map[];
      var pending := grouped.Keys;
      while pending != {}
        invariant pending <= grouped.Keys && sorted.Keys == grouped.Keys - pending
        invariant forall p :: p in sorted ==>
          InTimeOrder(sorted[p]) && multiset(sorted[p]) == multiset(grouped[p]) && |sorted[p]| == |grouped[p]|
        decreases pending
      {
        var p :| p in pending;
        var s := SortByTime(grouped[p]);
        sorted := sorted[p := s];
        pending := pending - {p};
      }
    }

    /** Every pair's cursor moves to the later of where it was and where a
        search from scratch would be. */
    method AdvanceTo(timestampMs: nat)
      requires Valid()
      modifies this`currentTimeMs, this`currentIndex
      ensures Valid() && currentTimeMs == timestampMs
      ensures forall p :: p in snapshots ==>
        currentIndex[p] == MaxNat(old(currentIndex)[p], Seek(snapshots[p], timestampMs))
    {
      currentTimeMs := timestampMs;
      var pending := snapshots.Keys;
      while pending != {}
        modifies this`currentIndex
        invariant pending <= snapshots.Keys && currentIndex.Keys == snapshots.Keys
        invariant forall p :: p in pending ==> currentIndex[p] == old(currentIndex)[p]
        invariant forall p :: p in snapshots.Keys - pending ==>
          currentIndex[p] == MaxNat(old(currentIndex)[p], Seek(snapshots[p], timestampMs)) < |snapshots[p]|
        decreases pending
      {
        var p :| p in pending;
        var idx := AdvanceCursor(snapshots[p], currentIndex[p], timestampMs);
        currentIndex := currentIndex[p := idx];
        pending := pending - {p};
      }
    }

    function CurrentLevels(side: Side, pair: string): seq<PriceLevel>
      requires Valid()
      reads this
    {
      if pair !in snapshots then []
      else if side == Buy then snapshots[pair][currentIndex[pair]].asks
      else snapshots[pair][currentIndex[pair]].bids
    }

    method FetchOrderBook(pair: string, depth: nat) returns (bids: seq<PriceLevel>, asks: seq<PriceLevel>)
      requires Valid()
      ensures bids == CurrentLevels(Sell, pair)[..MinNat(depth, |CurrentLevels(Sell, pair)|)]
      ensures asks == CurrentLevels(Buy, pair)[..MinNat(depth, |CurrentLevels(Buy, pair)|)]
    {
      bids, asks := CurrentLevels(Sell, pair), CurrentLevels(Buy, pair);
      if |bids| > depth {
        bids := bids[..depth];
      }
      if |asks| > depth {
        asks := asks[..depth];
      }
    }

    /** The order walks the whole replayed book of the pair. */
    method PlaceLimitOrder(req: OrderRequest) returns (result: OrderResult)
      requires Valid()
      modifies this`balances
      ensures Valid()
      ensures result == Outcome(old(balances), takerFee, CurrentLevels(req.side, req.pair), req)
      ensures balances == AfterOrder(old(balances), req, result)
      ensures result.filledQuantity > 0.0 ==>
        result.feePaid == result.avgFillPrice * result.filledQuantity * takerFee
    {
      hide LimitLeft, LimitCost, BaseAsset, QuoteAsset, Cash, Credit;
      var levels := CurrentLevels(req.side, req.pair);
      var base, quote := BaseAsset(req.pair), Quote(req.pair);
      if levels == [] {
        return REJECTED_RESULT;
      }
      var available := Amount(balances, if req.side == Buy then quote else base);
      if available < Needed(req) {
        return REJECTED_RESULT;
      }
      var filled, cost := WalkBook(req.side, levels, req.price, req.quantity);
      result := FillReport(filled, cost, req.quantity, takerFee);
      if filled > 0.0 {
        CashIsCost(req.side, filled, cost, req.quantity, takerFee);
        FeeOnCost(filled, cost, req.quantity, takerFee);
        if req.side == Buy {
          balances := Credit(balances, base, filled);
          balances := Credit(balances, quote, -(cost + result.feePaid));
        } else {
          balances := Credit(balances, base, -filled);
          balances := Credit(balances, quote, cost - result.feePaid);
        }
      }
    }
  }
}
