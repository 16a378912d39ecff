/** Effective prices and the search for the largest arbitrage quantity
    (src/orderbook/depth_analyzer.cpp). */
module DepthAnalyzer {
  import opened Types
  import opened RealFacts
  import opened DepthWalk

  datatype EffectivePrice = EffectivePrice(
    avgPrice: real, totalCost: real, quantityFilled: real, slippageBps: real, fullyFillable: bool)

  const NO_FILL := EffectivePrice(0.0, 0.0, 0.0, 0.0, false)

  const EPSILON := 0.00000001
  const MAX_ITERATIONS: nat := 50

  /** What a walk that leaves `remaining` and costs `cost` reports. */
  function Report(side: Side, top: real, quantity: real, remaining: real, cost: real): EffectivePrice {
    var filled := quantity - remaining;
    var avg := if filled > 0.0 then cost / filled else 0.0;
    var slippage :=
      if filled <= 0.0 || top <= 0.0 then 0.0
      else if side == Buy then (avg - top) / top * 10000.0
      else (top - avg) / top * 10000.0;
    EffectivePrice(avg, cost, filled, slippage, remaining <= 0.0)
  }

  function Effective(side: Side, levels: seq<PriceLevel>, quantity: real): EffectivePrice {
    if levels == [] || quantity <= 0.0 then NO_FILL
    else Report(side, levels[0].price, quantity, Remaining(levels, quantity), Cost(levels, quantity))
  }

  method EffectiveBuyPrice(asks: seq<PriceLevel>, quantity: real) returns (r: EffectivePrice)
    ensures r == Effective(Buy, asks, quantity)
  {
    if asks == [] || quantity <= 0.0 {
      return NO_FILL;
    }
    var remaining, totalCost := quantity, 0.0;
    var i := 0;
    while i < |asks|
      invariant 0 <= i <= |asks|
      invariant Remaining(asks[i..], remaining) == Remaining(asks, quantity)
      invariant totalCost + Cost(asks[i..], remaining) == Cost(asks, quantity)
    {
      if remaining <= 0.0 {
        break;
      }
      var fill := Min(remaining, asks[i].quantity);
      assert asks[i..][1..] == asks[i + 1..];
      ZeroWalk(asks[i + 1..]);
      totalCost := totalCost + fill * asks[i].price;
      remaining := remaining - fill;
      i := i + 1;
    }
    r := Report(Buy, asks[0].price, quantity, remaining, totalCost);
  }

  method EffectiveSellPrice(bids: seq<PriceLevel>, quantity: real) returns (r: EffectivePrice)
    ensures r == Effective(Sell, bids, quantity)
  {
    if bids == [] || quantity <= 0.0 {
      return NO_FILL;
    }
    var remaining, totalProceeds := quantity, 0.0;
    var i := 0;
    while i < |bids|
      invariant 0 <= i <= |bids|
      invariant Remaining(bids[i..], remaining) == Remaining(bids, quantity)
      invariant totalProceeds + Cost(bids[i..], remaining) == Cost(bids, quantity)
    {
      if remaining <= 0.0 {
        break;
      }
      var fill := Min(remaining, bids[i].quantity);
      assert bids[i..][1..] == bids[i + 1..];
      ZeroWalk(bids[i + 1..]);
      totalProceeds := totalProceeds + fill * bids[i].price;
      remaining := remaining - fill;
      i := i + 1;
    }
    r := Report(Sell, bids[0].price, quantity, remaining, totalProceeds);
  }

  /** On a book with positive sizes an effective price fills the smaller of the
      request and the depth, and says so. */
  lemma EffectiveFills(side: Side, levels: seq<PriceLevel>, quantity: real)
    requires PositiveSizes(levels) && quantity > 0.0
    ensures var r := Effective(side, levels, quantity);
      && r.quantityFilled == Min(quantity, Total(levels))
      && (r.fullyFillable <==> quantity <= Total(levels))
      && (r.quantityFilled > 0.0 ==> r.avgPrice * r.quantityFilled == r.totalCost)
  {
    TotalNonNegative(levels);
    RemainingIsShortfall(levels, quantity);
    if levels != [] {
      hide Report, Remaining, Cost, Total;
      ReportShows(side, levels[0].price, quantity, Remaining(levels, quantity), Cost(levels, quantity));
    }
  }

  lemma ReportShows(side: Side, top: real, quantity: real, remaining: real, cost: real)
    ensures var r := Report(side, top, quantity, remaining, cost);
      && r.quantityFilled == quantity - remaining && r.totalCost == cost && (r.fullyFillable <==> remaining <= 0.0)
      && (r.quantityFilled > 0.0 ==> r.avgPrice * r.quantityFilled == r.totalCost)
  {
    if quantity - remaining > 0.0 {
      QuotientTimes(cost, quantity - remaining);
    }
  }

  lemma EffectiveIsVwap(side: Side, levels: seq<PriceLevel>, quantity: real)
    requires PositiveSizes(levels) && 0.0 < quantity <= Total(levels)
    ensures Effective(side, levels, quantity).fullyFillable
    ensures Effective(side, levels, quantity).avgPrice == Vwap(levels, quantity)
    ensures PositivePrices(levels) ==> Vwap(levels, quantity) > 0.0
  {
    RemainingIsShortfall(levels, quantity);
    if PositivePrices(levels) {
      CostPositive(levels, quantity);
      QuotientTimes(Cost(levels, quantity), quantity);
    }
  }

  /** The slippage is how far the average lies beyond the best price, in basis points of that. */
  lemma SlippageMeans(side: Side, levels: seq<PriceLevel>, quantity: real)
    requires PositiveSizes(levels) && 0.0 < quantity <= Total(levels) && levels[0].price > 0.0
    ensures var r, top := Effective(side, levels, quantity), levels[0].price;
      && r.slippageBps * top == 10000.0 * (if side == Buy then r.avgPrice - top else top - r.avgPrice)
      && (side == Buy && GoodAsks(levels) ==> r.slippageBps >= 0.0)
      && (side == Sell && GoodBids(levels) ==> r.slippageBps >= 0.0)
  {
    var avg, top := Vwap(levels, quantity), levels[0].price;
    RemainingIsShortfall(levels, quantity);
    EffectiveIsVwap(side, levels, quantity);
    var beyond := if side == Buy then avg - top else top - avg;
    assert Effective(side, levels, quantity).slippageBps == beyond / top * 10000.0;
    hide Effective, Vwap, Remaining;
    SlippageTimes(beyond, top);
    if side == Buy && GoodAsks(levels) {
      BuyVwapAtLeastTop(levels, quantity);
    } else if side == Sell && GoodBids(levels) {
      SellVwapAtMostTop(levels, quantity);
    }
  }

  lemma SlippageTimes(beyond: real, top: real)
    requires top > 0.0
    ensures (beyond / top * 10000.0) * top == 10000.0 * beyond
    ensures beyond >= 0.0 ==> beyond / top * 10000.0 >= 0.0
  {
    QuotientTimes(beyond, top);
    Associate(beyond / top, 10000.0, top);
    Associate(beyond / top, top, 10000.0);
  }

  // ----- the net spread -----

  function SpreadBps(buyPrice: real, sellPrice: real): real
    requires buyPrice != 0.0
  {
    (sellPrice - buyPrice) / buyPrice * 10000.0
  }

  /** The quantity can be bought and sold in full with a net spread of at least the minimum. */
  predicate Feasible(asks: seq<PriceLevel>, bids: seq<PriceLevel>, minNetBps: real, feeRate: real, quantity: real) {
    var buy, sell := Effective(Buy, asks, quantity), Effective(Sell, bids, quantity);
    && buy.fullyFillable && sell.fullyFillable && buy.avgPrice > 0.0
    && SpreadBps(buy.avgPrice, sell.avgPrice) - feeRate * 10000.0 >= minNetBps
  }

  lemma SpreadOrder(buy: real, sell: real, dearer: real, cheaper: real)
    requires 0.0 < buy <= dearer && sell >= cheaper > 0.0
    ensures SpreadBps(buy, sell) >= SpreadBps(dearer, cheaper)
  {
    var u, v := (sell - buy) / buy + 1.0, (cheaper - dearer) / dearer + 1.0;
    QuotientTimes(sell - buy, buy);
    QuotientTimes(cheaper - dearer, dearer);
    assert u * buy == sell && v * dearer == cheaper;
    if v <= 0.0 {
      MulMonotone(dearer, v, 0.0);
    }
    MulMonotone(v, buy, dearer);
    QuotientOrder(v, u, buy);
  }

  /** The net spread never rises with the quantity, so feasibility is inherited downwards. */
  lemma FeasibleDownwards(asks: seq<PriceLevel>, bids: seq<PriceLevel>, minNetBps: real, feeRate: real,
                          small: real, large: real)
    requires GoodAsks(asks) && GoodBids(bids)
    requires 0.0 < small <= large && Feasible(asks, bids, minNetBps, feeRate, large)
    ensures Feasible(asks, bids, minNetBps, feeRate, small)
    ensures SpreadBps(Effective(Buy, asks, small).avgPrice, Effective(Sell, bids, small).avgPrice)
         >= SpreadBps(Effective(Buy, asks, large).avgPrice, Effective(Sell, bids, large).avgPrice)
  {
    hide Cost, Remaining, Effective, Vwap;
    EffectiveFills(Buy, asks, large);
    EffectiveFills(Sell, bids, large);
    EffectiveIsVwap(Buy, asks, small);
    EffectiveIsVwap(Buy, asks, large);
    EffectiveIsVwap(Sell, bids, small);
    EffectiveIsVwap(Sell, bids, large);
    BuyVwapRises(asks, small, large);
    SellVwapFalls(bids, small, large);
    SpreadOrder(Vwap(asks, small), Vwap(bids, small), Vwap(asks, large), Vwap(bids, large));
  }

  lemma FeasibleBounds(asks: seq<PriceLevel>, bids: seq<PriceLevel>, minNetBps: real, feeRate: real, quantity: real)
    requires PositiveSizes(asks) && PositiveSizes(bids)
    requires Feasible(asks, bids, minNetBps, feeRate, quantity)
    ensures 0.0 < quantity <= Min(Total(asks), Total(bids))
    ensures asks != [] && bids != []
  {
    EffectiveFills(Buy, asks, quantity);
    EffectiveFills(Sell, bids, quantity);
  }

  /** The quick filter loses nothing: a top-of-book net spread below the minimum
      rules out every quantity. */
  lemma QuickFilterLosesNothing(asks: seq<PriceLevel>, bids: seq<PriceLevel>, minNetBps: real, feeRate: real,
                                quantity: real)
    requires GoodAsks(asks) && GoodBids(bids) && asks != [] && bids != []
    requires SpreadBps(asks[0].price, bids[0].price) - feeRate * 10000.0 < minNetBps
    ensures !Feasible(asks, bids, minNetBps, feeRate, quantity)
  {
    hide Cost, Remaining, Effective, Vwap;
    if Feasible(asks, bids, minNetBps, feeRate, quantity) {
      FeasibleBounds(asks, bids, minNetBps, feeRate, quantity);
      EffectiveIsVwap(Buy, asks, quantity);
      EffectiveIsVwap(Sell, bids, quantity);
      BuyVwapAtLeastTop(asks, quantity);
      SellVwapAtMostTop(bids, quantity);
      SpreadOrder(asks[0].price, bids[0].price, Vwap(asks, quantity), Vwap(bids, quantity));
    }
  }

  // ----- the bisection -----

  /** One round: the next interval, and whether the search ends with it. A quantity
      that cannot be filled shrinks the interval without the closeness test. */
  function Probe(asks: seq<PriceLevel>, bids: seq<PriceLevel>, minNetBps: real, feeRate: real, lo: real, hi: real)
    : (r: (real, real, bool))
  {
    var mid := (lo + hi) / 2.0;
    var buy, sell := Effective(Buy, asks, mid), Effective(Sell, bids, mid);
    if mid < EPSILON then (lo, hi, true)
    else if !buy.fullyFillable || !sell.fullyFillable || buy.avgPrice <= 0.0 then (lo, mid, false)
    else if SpreadBps(buy.avgPrice, sell.avgPrice) - feeRate * 10000.0 >= minNetBps then (mid, hi, hi - mid < EPSILON)
    else (lo, mid, mid - lo < EPSILON)
  }

  /** The search from the interval (lo, hi) with at most `rounds` rounds left;
      `lo` is always the best quantity so far. */
  function Bisect(asks: seq<PriceLevel>, bids: seq<PriceLevel>, minNetBps: real, feeRate: real,
                  lo: real, hi: real, rounds: nat): real
    decreases rounds
  {
    if rounds == 0 then lo
    else
      var (lo', hi', done) := Probe(asks, bids, minNetBps, feeRate, lo, hi);
      if done then lo' else Bisect(asks, bids, minNetBps, feeRate, lo', hi', rounds - 1)
  }

  function MaxArb(asks: seq<PriceLevel>, bids: seq<PriceLevel>, minNetBps: real, feeRate: real): real {
    if asks == [] || bids == [] || asks[0].price <= 0.0 then 0.0
    else if SpreadBps(asks[0].price, bids[0].price) - feeRate * 10000.0 < minNetBps then 0.0
    else
      var maxQuantity := Min(Total(asks), Total(bids));
      if maxQuantity <= 0.0 then 0.0
      else Bisect(asks, bids, minNetBps, feeRate, 0.0, maxQuantity, MAX_ITERATIONS)
  }

  method TotalQuantity(levels: seq<PriceLevel>) returns (sum: real)
    ensures sum == Total(levels)
  {
    sum := 0.0;
    for i := 0 to |levels|
      invariant sum + Total(levels[i..]) == Total(levels)
    {
      assert levels[i..][1..] == levels[i + 1..];
      sum := sum + levels[i].quantity;
    }
  }

  /** The body of the search loop. */
  method ProbeRound(asks: seq<PriceLevel>, bids: seq<PriceLevel>, minNetBps: real, feeRate: real, lo: real, hi: real)
    returns (lo': real, hi': real, done: bool)
    ensures (lo', hi', done) == Probe(asks, bids, minNetBps, feeRate, lo, hi)
  {
    lo', hi' := lo, hi;
    var mid := (lo + hi) / 2.0;
    if mid < EPSILON {
      return lo', hi', true;
    }
    var buy := EffectiveBuyPrice(asks, mid);
    var sell := EffectiveSellPrice(bids, mid);
    if !buy.fullyFillable || !sell.fullyFillable {
      hi' := mid;
      return lo', hi', false;
    }
    if buy.avgPrice <= 0.0 {
      hi' := mid;
      return lo', hi', false;
    }
    var currentGrossBps := (sell.avgPrice - buy.avgPrice) / buy.avgPrice * 10000.0;
    var currentNetBps := currentGrossBps - feeRate * 10000.0;
    if currentNetBps >= minNetBps {
      lo' := mid;
    } else {
      hi' := mid;
    }
    done := hi' - lo' < EPSILON;
  }

  method MaxArbQuantity(asks: seq<PriceLevel>, bids: seq<PriceLevel>, minNetBps: real, feeRate: real)
    returns (bestQuantity: real)
    ensures bestQuantity == MaxArb(asks, bids, minNetBps, feeRate)
  {
    hide Effective, Total, Probe;
    if asks == [] || bids == [] {
      return 0.0;
    }
    var topAsk, topBid := asks[0].price, bids[0].price;
    if topAsk <= 0.0 {
      return 0.0;
    }
    var grossBps := (topBid - topAsk) / topAsk * 10000.0;
    var netBps := grossBps - feeRate * 10000.0;
    if netBps < minNetBps {
      return 0.0;
    }
    var totalAsk := TotalQuantity(asks);
    var totalBid := TotalQuantity(bids);
    var maxQuantity := Min(totalAsk, totalBid);
    if maxQuantity <= 0.0 {
      return 0.0;
    }
    var lo, hi := 0.0, maxQuantity;
    ghost var goal := Bisect(asks, bids, minNetBps, feeRate, lo, hi, MAX_ITERATIONS);
    bestQuantity := 0.0;
    for i := 0 to MAX_ITERATIONS
      invariant bestQuantity == lo
      invariant Bisect(asks, bids, minNetBps, feeRate, lo, hi, MAX_ITERATIONS - i) == goal
    {
      var done;
      lo, hi, done := ProbeRound(asks, bids, minNetBps, feeRate, lo, hi);
      bestQuantity := lo;
      if done {
        break;
      }
    }
  }

  /** For any books at all, a positive answer is feasible. */
  lemma {:induction false} BisectSound(asks: seq<PriceLevel>, bids: seq<PriceLevel>, minNetBps: real, feeRate: real,
                                       lo: real, hi: real, rounds: nat)
    requires lo == 0.0 || Feasible(asks, bids, minNetBps, feeRate, lo)
    ensures var q := Bisect(asks, bids, minNetBps, feeRate, lo, hi, rounds);
      q == 0.0 || Feasible(asks, bids, minNetBps, feeRate, q)
    decreases rounds
  {
    hide Effective, SpreadBps;
    var mid := (lo + hi) / 2.0;
    if rounds != 0 && mid >= EPSILON {
      if Feasible(asks, bids, minNetBps, feeRate, mid) {
        BisectSound(asks, bids, minNetBps, feeRate, mid, hi, rounds - 1);
      } else {
        BisectSound(asks, bids, minNetBps, feeRate, lo, mid, rounds - 1);
      }
    }
  }

  ghost function Pow2(n: nat): (r: real)
    ensures r > 0.0
  {
    if n == 0 then 1.0 else 2.0 * Pow2(n - 1)
  }

  ghost predicate Within(gap: real, slack: real) {
    gap <= 0.00000002 || gap <= slack
  }

  lemma HalfWidth(width: real, rounds: nat)
    requires rounds > 0
    ensures (width / 2.0) / Pow2(rounds - 1) == width / Pow2(rounds)
  {
    var p := Pow2(rounds - 1);
    var r := (width / 2.0) / p;
    QuotientTimes(width / 2.0, p);
    assert r * (2.0 * p) == 2.0 * (r * p);
    QuotientIs(width, 2.0 * p, r);
  }

  /** On good books no feasible quantity exceeds the answer by more than the
      interval halved once per round, or 2e-8. */
  lemma {:induction false} BisectNear(asks: seq<PriceLevel>, bids: seq<PriceLevel>, minNetBps: real, feeRate: real,
                                      lo: real, hi: real, rounds: nat, quantity: real)
    requires GoodAsks(asks) && GoodBids(bids)
    requires 0.0 <= lo <= hi
    requires Feasible(asks, bids, minNetBps, feeRate, quantity) && quantity <= hi
    ensures Within(quantity - Bisect(asks, bids, minNetBps, feeRate, lo, hi, rounds), (hi - lo) / Pow2(rounds))
    decreases rounds
  {
    hide Effective, SpreadBps;
    var mid := (lo + hi) / 2.0;
    if rounds != 0 && mid >= EPSILON {
      HalfWidth(hi - lo, rounds);
      if Feasible(asks, bids, minNetBps, feeRate, mid) {
        assert hi - mid == (hi - lo) / 2.0;
        BisectNear(asks, bids, minNetBps, feeRate, mid, hi, rounds - 1, quantity);
      } else {
        if quantity >= mid {
          FeasibleDownwards(asks, bids, minNetBps, feeRate, mid, quantity);
        }
        assert mid - lo == (hi - lo) / 2.0;
        BisectNear(asks, bids, minNetBps, feeRate, lo, mid, rounds - 1, quantity);
      }
    }
  }

  /** The answer is 0 or feasible, whatever the books, and not 0 only if the top of
      the book reaches the minimum. */
  lemma MaxArbSound(asks: seq<PriceLevel>, bids: seq<PriceLevel>, minNetBps: real, feeRate: real)
    ensures var q := MaxArb(asks, bids, minNetBps, feeRate);
      q == 0.0
      || (&& q > 0.0 && Feasible(asks, bids, minNetBps, feeRate, q)
          && asks != [] && bids != [] && asks[0].price > 0.0
          && SpreadBps(asks[0].price, bids[0].price) - feeRate * 10000.0 >= minNetBps)
  {
    hide Bisect;
    var maxQuantity := Min(Total(asks), Total(bids));
    BisectSound(asks, bids, minNetBps, feeRate, 0.0, maxQuantity, MAX_ITERATIONS);
  }

  /** On good books every feasible quantity is within the larger of 2e-8 and
      the searched depth / 2^50 of the answer; in particular an answer of 0
      leaves at most that much on the table. */
  lemma MaxArbNearOptimal(asks: seq<PriceLevel>, bids: seq<PriceLevel>, minNetBps: real, feeRate: real, quantity: real)
    requires GoodAsks(asks) && GoodBids(bids)
    requires Feasible(asks, bids, minNetBps, feeRate, quantity)
    ensures Within(quantity - MaxArb(asks, bids, minNetBps, feeRate), Min(Total(asks), Total(bids)) / Pow2(50))
  {
    hide Bisect, Feasible, Effective, SpreadBps, Pow2;
    FeasibleBounds(asks, bids, minNetBps, feeRate, quantity);
    if SpreadBps(asks[0].price, bids[0].price) - feeRate * 10000.0 < minNetBps {
      QuickFilterLosesNothing(asks, bids, minNetBps, feeRate, quantity);
    } else {
      BisectNear(asks, bids, minNetBps, feeRate, 0.0, Min(Total(asks), Total(bids)), MAX_ITERATIONS, quantity);
    }
  }
}
