/** The simulated exchange's own walk over a book, bounded by a limit price
    (src/backtest/simulated_exchange.cpp), and how it relates to the walk of
    the depth analyzer. */
module LimitOrders {
  import opened Types
  import opened RealFacts
  import opened DepthWalk

  /** The limit lets the order trade at this price. */
  predicate Admits(side: Side, limit: real, price: real) {
    if side == Buy then price <= limit else price >= limit
  }

  /** What the bounded walk leaves of `wanted`. */
  function LimitLeft(side: Side, levels: seq<PriceLevel>, limit: real, wanted: real): real {
    if levels == [] || !Admits(side, limit, levels[0].price) then wanted
    else if wanted <= levels[0].quantity then 0.0
    else LimitLeft(side, levels[1..], limit, wanted - levels[0].quantity)
  }

  /** What the bounded walk costs, or earns. */
  function LimitCost(side: Side, levels: seq<PriceLevel>, limit: real, wanted: real): real {
    if levels == [] || !Admits(side, limit, levels[0].price) then 0.0
    else if wanted <= levels[0].quantity then Notional(wanted, levels[0].price)
    else
      Notional(levels[0].quantity, levels[0].price)
      + LimitCost(side, levels[1..], limit, wanted - levels[0].quantity)
  }

  method WalkBook(side: Side, levels: seq<PriceLevel>, limit: real, quantity: real) returns (filled: real, cost: real)
    ensures filled == quantity - LimitLeft(side, levels, limit, quantity)
    ensures cost == LimitCost(side, levels, limit, quantity)
  {
    hide Admits, Notional;
    filled, cost := 0.0, 0.0;
    var i := 0;
    while i < |levels|
      invariant 0 <= i <= |levels|
      invariant LimitLeft(side, levels[i..], limit, quantity - filled) == LimitLeft(side, levels, limit, quantity)
      invariant cost + LimitCost(side, levels[i..], limit, quantity - filled)
        == LimitCost(side, levels, limit, quantity)
    {
      if !Admits(side, limit, levels[i].price) {
        break;
      }
      var remaining := quantity - filled;
      var take := Min(levels[i].quantity, remaining);
      assert levels[i..][1..] == levels[i + 1..];
      assert quantity - (filled + take) == remaining - take;
      cost := cost + Notional(take, levels[i].price);
      filled := filled + take;
      if filled >= quantity {
        return;
      }
      i := i + 1;
    }
  }

  /** The leading levels the limit lets through. */
  ghost function Reachable(side: Side, levels: seq<PriceLevel>, limit: real): (r: seq<PriceLevel>)
    ensures forall i :: 0 <= i < |r| ==> Admits(side, limit, r[i].price) && r[i] in levels
  {
    if levels == [] || !Admits(side, limit, levels[0].price) then []
    else [levels[0]] + Reachable(side, levels[1..], limit)
  }

  /** They are the levels up to the first one beyond the limit. */
  lemma {:induction false} ReachableIs(side: Side, levels: seq<PriceLevel>, limit: real)
    ensures var r := Reachable(side, levels, limit);
      && r <= levels
      && (forall i :: 0 <= i < |r| ==> if side == Buy then levels[i].price <= limit else levels[i].price >= limit)
      && (|r| < |levels| ==> if side == Buy then levels[|r|].price > limit else levels[|r|].price < limit)
  {
    if levels != [] && Admits(side, limit, levels[0].price) {
      ReachableIs(side, levels[1..], limit);
    }
  }

  /** On any book the bounded walk is the plain walk over the reachable levels. */
  lemma {:induction false} LimitWalkIsWalk(side: Side, levels: seq<PriceLevel>, limit: real, wanted: real)
    requires wanted > 0.0
    ensures LimitLeft(side, levels, limit, wanted) == Remaining(Reachable(side, levels, limit), wanted)
    ensures LimitCost(side, levels, limit, wanted) == Cost(Reachable(side, levels, limit), wanted)
  {
    hide Admits, Remaining, Cost;
    var r := Reachable(side, levels, limit);
    if levels != [] && Admits(side, limit, levels[0].price) {
      ConsStep(levels[0], Reachable(side, levels[1..], limit), wanted);
      if wanted > levels[0].quantity {
        LimitWalkIsWalk(side, levels[1..], limit, wanted - levels[0].quantity);
      }
    } else {
      NoStep(r, wanted);
    }
  }

  // ----- agreement with the effective price -----

  /** How many levels the plain walk takes from. */
  ghost function Touched(levels: seq<PriceLevel>, quantity: real): (n: nat)
    ensures n <= |levels|
  {
    if levels == [] || quantity <= 0.0 then 0
    else if quantity <= levels[0].quantity then 1
    else 1 + Touched(levels[1..], quantity - levels[0].quantity)
  }

  ghost predicate Ordered(side: Side, levels: seq<PriceLevel>) {
    if side == Buy then Ascending(levels) else Descending(levels)
  }

  ghost predicate DeepestAdmitted(side: Side, levels: seq<PriceLevel>, limit: real, quantity: real) {
    var n := Touched(levels, quantity);
    n == 0 || Admits(side, limit, levels[n - 1].price)
  }

  /** On a sorted book the bounded order fills the same quantity at the same
      cost as the effective price predicts exactly when the limit admits the
      deepest level touched. */
  lemma AgreesIffDeepestAdmitted(side: Side, levels: seq<PriceLevel>, limit: real, quantity: real)
    requires PositiveSizes(levels) && Ordered(side, levels) && quantity > 0.0
    ensures LimitLeft(side, levels, limit, quantity) == Remaining(levels, quantity)
         && LimitCost(side, levels, limit, quantity) == Cost(levels, quantity)
      <==> DeepestAdmitted(side, levels, limit, quantity)
  {
    hide Remaining, Cost, LimitLeft, LimitCost;
    LimitWalkIsWalk(side, levels, limit, quantity);
    if DeepestAdmitted(side, levels, limit, quantity) {
      ReachableSuffices(side, levels, limit, quantity);
    } else {
      ReachableFallsShort(side, levels, limit, quantity);
    }
  }

  lemma {:induction false} ReachableSuffices(side: Side, levels: seq<PriceLevel>, limit: real, quantity: real)
    requires PositiveSizes(levels) && Ordered(side, levels) && DeepestAdmitted(side, levels, limit, quantity)
    ensures Remaining(Reachable(side, levels, limit), quantity) == Remaining(levels, quantity)
    ensures Cost(Reachable(side, levels, limit), quantity) == Cost(levels, quantity)
  {
    hide Remaining, Cost;
    if levels != [] && quantity > 0.0 {
      var n, r := Touched(levels, quantity), Reachable(side, levels, limit);
      FirstIsAdmitted(side, levels, limit, n);
      hide Admits, Ordered;
      assert r[1..] == Reachable(side, levels[1..], limit);
      OneStep(levels, quantity);
      OneStep(r, quantity);
      if quantity > levels[0].quantity {
        assert n > 1 ==> levels[1..][n - 2] == levels[n - 1];
        RestOrdered(side, levels);
        ReachableSuffices(side, levels[1..], limit, quantity - levels[0].quantity);
      }
    } else {
      NoStep(levels, quantity);
      NoStep(Reachable(side, levels, limit), quantity);
    }
  }

  lemma OneStep(levels: seq<PriceLevel>, quantity: real)
    requires levels != [] && quantity > 0.0
    ensures Remaining(levels, quantity)
         == if quantity <= levels[0].quantity then 0.0 else Remaining(levels[1..], quantity - levels[0].quantity)
    ensures Cost(levels, quantity)
         == if quantity <= levels[0].quantity then Notional(quantity, levels[0].price)
            else Notional(levels[0].quantity, levels[0].price) + Cost(levels[1..], quantity - levels[0].quantity)
  {
  }

  lemma ConsStep(level: PriceLevel, rest: seq<PriceLevel>, quantity: real)
    requires quantity > 0.0
    ensures var r := [level] + rest;
      && Remaining(r, quantity)
         == (if quantity <= level.quantity then 0.0 else Remaining(rest, quantity - level.quantity))
      && Cost(r, quantity) == (if quantity <= level.quantity then Notional(quantity, level.price)
                               else Notional(level.quantity, level.price) + Cost(rest, quantity - level.quantity))
  {
    assert ([level] + rest)[1..] == rest;
  }

  lemma NoStep(levels: seq<PriceLevel>, quantity: real)
    requires levels == [] || quantity <= 0.0
    ensures Remaining(levels, quantity) == quantity && Cost(levels, quantity) == 0.0
  {
  }

  lemma FirstIsAdmitted(side: Side, levels: seq<PriceLevel>, limit: real, n: nat)
    requires Ordered(side, levels) && 0 < n <= |levels| && Admits(side, limit, levels[n - 1].price)
    ensures Admits(side, limit, levels[0].price)
  {
  }

  lemma RestOrdered(side: Side, levels: seq<PriceLevel>)
    requires Ordered(side, levels) && levels != []
    ensures Ordered(side, levels[1..])
  {
  }

  lemma {:induction false} ReachableFallsShort(side: Side, levels: seq<PriceLevel>, limit: real, quantity: real)
    requires PositiveSizes(levels) && !DeepestAdmitted(side, levels, limit, quantity)
    ensures Remaining(Reachable(side, levels, limit), quantity) > Remaining(levels, quantity)
  {
    hide Admits, Remaining;
    RemainingIsShortfall(levels, quantity);
    var n, r := Touched(levels, quantity), Reachable(side, levels, limit);
    OneStep(levels, quantity);
    if Admits(side, limit, levels[0].price) {
      assert r[1..] == Reachable(side, levels[1..], limit);
      assert levels[1..][n - 2] == levels[n - 1];
      OneStep(r, quantity);
      ReachableFallsShort(side, levels[1..], limit, quantity - levels[0].quantity);
    } else {
      NoStep(r, quantity);
      StrictlyLess(levels, quantity);
    }
  }

  lemma StrictlyLess(levels: seq<PriceLevel>, quantity: real)
    requires PositiveSizes(levels) && levels != [] && quantity > 0.0
    ensures Remaining(levels, quantity) < quantity
  {
    RemainingIsShortfall(levels, quantity);
    TotalNonNegative(levels);
  }

  // ----- what the walk keeps -----

  ghost predicate NonNegativeSizes(levels: seq<PriceLevel>) {
    forall i :: 0 <= i < |levels| ==> levels[i].quantity >= 0.0
  }

  /** The walk fills at most the request, at an average no worse than the limit. */
  ghost predicate RespectsLimit(side: Side, levels: seq<PriceLevel>, limit: real, wanted: real) {
    var filled, cost := wanted - LimitLeft(side, levels, limit, wanted), LimitCost(side, levels, limit, wanted);
    && 0.0 <= filled <= wanted
    && (if side == Buy then cost <= limit * filled else cost >= limit * filled)
  }

  /** No negative size is enough; the book need not be sorted. */
  lemma {:induction false} LimitRespected(side: Side, levels: seq<PriceLevel>, limit: real, wanted: real)
    requires NonNegativeSizes(levels) && wanted > 0.0
    ensures RespectsLimit(side, levels, limit, wanted)
  {
    hide LimitLeft, LimitCost, Admits, Notional;
    if levels == [] || !Admits(side, limit, levels[0].price) {
      NothingTraded(side, levels, limit, wanted);
    } else {
      var size, price, rest := levels[0].quantity, levels[0].price, levels[1..];
      LevelTraded(side, levels, limit, wanted);
      if wanted <= size {
        TradeWithinLimit(side, price, limit, wanted);
      } else {
        LimitRespected(side, rest, limit, wanted - size);
        var left, cost := LimitLeft(side, rest, limit, wanted - size), LimitCost(side, rest, limit, wanted - size);
        TradeThenRest(side, price, limit, size, wanted - size - left, cost, wanted - left);
      }
    }
  }

  lemma NothingTraded(side: Side, levels: seq<PriceLevel>, limit: real, wanted: real)
    requires levels == [] || !Admits(side, limit, levels[0].price)
    ensures LimitLeft(side, levels, limit, wanted) == wanted && LimitCost(side, levels, limit, wanted) == 0.0
  {
  }

  lemma LevelTraded(side: Side, levels: seq<PriceLevel>, limit: real, wanted: real)
    requires levels != [] && Admits(side, limit, levels[0].price)
    ensures var size, price, rest := levels[0].quantity, levels[0].price, levels[1..];
      && (wanted <= size ==>
           && LimitLeft(side, levels, limit, wanted) == 0.0
           && LimitCost(side, levels, limit, wanted) == Notional(wanted, price))
      && (wanted > size ==>
           && LimitLeft(side, levels, limit, wanted) == LimitLeft(side, rest, limit, wanted - size)
           && LimitCost(side, levels, limit, wanted)
              == Notional(size, price) + LimitCost(side, rest, limit, wanted - size))
  {
  }

  lemma TradeThenRest(side: Side, price: real, limit: real, size: real, filled: real, cost: real, total: real)
    requires Admits(side, limit, price) && size >= 0.0 && total == size + filled
    requires if side == Buy then cost <= limit * filled else cost >= limit * filled
    ensures if side == Buy then Notional(size, price) + cost <= limit * total
      else Notional(size, price) + cost >= limit * total
  {
    TradeWithinLimit(side, price, limit, size);
    Distribute(limit, size, filled);
  }

  lemma TradeWithinLimit(side: Side, price: real, limit: real, quantity: real)
    requires Admits(side, limit, price) && quantity >= 0.0
    ensures if side == Buy then Notional(quantity, price) <= limit * quantity
      else Notional(quantity, price) >= limit * quantity
  {
    if side == Buy {
      MulMonotone(quantity, price, limit);
    } else {
      MulMonotone(quantity, limit, price);
    }
  }

  // ----- what an order keeps -----

  /** No leading part with a positive total holds a negative size. */
  ghost predicate SoundSizes(levels: seq<PriceLevel>) {
    forall m, i :: 0 <= i < m <= |levels| && Total(levels[..m]) > 0.0 ==> levels[i].quantity >= 0.0
  }

  /** An order that trades does so within its request and its limit; a walk that
      ends at nothing or less leaves the order open. */
  ghost predicate OrderRespectsLimit(side: Side, levels: seq<PriceLevel>, limit: real, wanted: real) {
    wanted - LimitLeft(side, levels, limit, wanted) > 0.0 ==> RespectsLimit(side, levels, limit, wanted)
  }

  /** Where the walk ends: it is the walk over the first m levels, and fills no
      more than they hold. */
  lemma {:induction false} WalkEnds(side: Side, levels: seq<PriceLevel>, limit: real, wanted: real) returns (m: nat)
    requires wanted > 0.0
    ensures m <= |levels|
    ensures LimitLeft(side, levels, limit, wanted) == LimitLeft(side, levels[..m], limit, wanted)
    ensures LimitCost(side, levels, limit, wanted) == LimitCost(side, levels[..m], limit, wanted)
    ensures wanted - LimitLeft(side, levels, limit, wanted) <= Total(levels[..m])
  {
    hide LimitLeft, LimitCost, Admits, Notional;
    if levels == [] || !Admits(side, limit, levels[0].price) {
      m := 0;
      NothingTraded(side, levels, limit, wanted);
      NothingTraded(side, levels[..0], limit, wanted);
    } else {
      LevelTraded(side, levels, limit, wanted);
      if wanted <= levels[0].quantity {
        m := 1;
        assert levels[..1][1..] == [];
      } else {
        var k := WalkEnds(side, levels[1..], limit, wanted - levels[0].quantity);
        m := k + 1;
        assert levels[..m][1..] == levels[1..][..k];
      }
      LevelTraded(side, levels[..m], limit, wanted);
    }
  }

  lemma SoundOrderRespectsLimit(side: Side, levels: seq<PriceLevel>, limit: real, wanted: real)
    requires SoundSizes(levels) && wanted > 0.0
    ensures OrderRespectsLimit(side, levels, limit, wanted)
  {
    if wanted - LimitLeft(side, levels, limit, wanted) > 0.0 {
      hide LimitLeft, LimitCost, Total;
      var m := WalkEnds(side, levels, limit, wanted);
      LimitRespected(side, levels[..m], limit, wanted);
    }
  }

  ghost predicate SameSizes(levels: seq<PriceLevel>, book: seq<PriceLevel>) {
    |levels| == |book| && forall i :: 0 <= i < |book| ==> levels[i].quantity == book[i].quantity
  }

  /** At all positive prices, limits and requests. */
  ghost predicate OrdersRespectLimits(side: Side, book: seq<PriceLevel>) {
    forall levels, limit: real, wanted: real :: SameSizes(levels, book) && PositivePrices(levels) && wanted > 0.0 ==>
      OrderRespectsLimit(side, levels, limit, wanted)
  }

  /** Which sizes let no order break its limit, whatever the positive prices and
      their order. Replayed data can carry negative sizes: the loader drops
      levels by their price only. */
  lemma LimitRespectedIff(side: Side, book: seq<PriceLevel>)
    ensures OrdersRespectLimits(side, book) <==> SoundSizes(book)
  {
    hide OrderRespectsLimit;
    if SoundSizes(book) {
      forall levels, limit: real, wanted: real | SameSizes(levels, book) && PositivePrices(levels) && wanted > 0.0
        ensures OrderRespectsLimit(side, levels, limit, wanted)
      {
        SameSizesAreSound(levels, book);
        SoundOrderRespectsLimit(side, levels, limit, wanted);
      }
    } else {
      var m, i :| 0 <= i < m <= |book| && Total(book[..m]) > 0.0 && book[i].quantity < 0.0;
      var levels, wanted := BrokenLimit(side, book, m, i);
    }
  }

  lemma {:induction false} SameTotal(levels: seq<PriceLevel>, book: seq<PriceLevel>)
    requires SameSizes(levels, book)
    ensures Total(levels) == Total(book)
  {
    if levels != [] {
      SameTotal(levels[1..], book[1..]);
    }
  }

  lemma SameSizesAreSound(levels: seq<PriceLevel>, book: seq<PriceLevel>)
    requires SameSizes(levels, book) && SoundSizes(book)
    ensures SoundSizes(levels)
  {
    forall m, i | 0 <= i < m <= |levels| && Total(levels[..m]) > 0.0 ensures levels[i].quantity >= 0.0 {
      SameTotal(levels[..m], book[..m]);
    }
  }

  /** The order that breaks its limit of 1 takes the first m levels, all at 1 but
      the negative one, which is at a better price; the others are out of reach. */
  lemma BrokenLimit(side: Side, book: seq<PriceLevel>, m: nat, i: nat) returns (levels: seq<PriceLevel>, wanted: real)
    requires i < m <= |book| && Total(book[..m]) > 0.0 && book[i].quantity < 0.0
    ensures SameSizes(levels, book) && PositivePrices(levels) && wanted > 0.0
    ensures wanted - LimitLeft(side, levels, 1.0, wanted) == Total(book[..m]) <= wanted
    ensures !OrderRespectsLimit(side, levels, 1.0, wanted)
  {
    var better, worse := if side == Buy then 0.5 else 2.0, if side == Buy then 2.0 else 0.5;
    levels := Priced(book, m, i, better, worse);
    wanted := 1.0 + Gross(book[..m]);
    GrossCovers(book[..m]);
    TakesAll(side, book, m, i, better, worse, wanted);
  }

  /** The sizes of a book at prices of our choice. */
  ghost function Priced(book: seq<PriceLevel>, m: nat, i: int, better: real, worse: real): (levels: seq<PriceLevel>)
    requires better > 0.0 && worse > 0.0
    ensures SameSizes(levels, book) && PositivePrices(levels)
  {
    if book == [] then []
    else
      var price := if m == 0 then worse else if i == 0 then better else 1.0;
      [PriceLevel(price, book[0].quantity)] + Priced(book[1..], if m == 0 then 0 else m - 1, i - 1, better, worse)
  }

  /** The positive sizes alone. */
  ghost function Gross(levels: seq<PriceLevel>): real {
    if levels == [] then 0.0
    else (if levels[0].quantity > 0.0 then levels[0].quantity else 0.0) + Gross(levels[1..])
  }

  lemma {:induction false} GrossCovers(levels: seq<PriceLevel>)
    ensures Gross(levels) >= 0.0 && Gross(levels) >= Total(levels)
  {
    if levels != [] {
      GrossCovers(levels[1..]);
    }
  }

  lemma {:induction false} TakesAll(side: Side, book: seq<PriceLevel>, m: nat, i: int, better: real, worse: real,
                                    wanted: real)
    requires m <= |book| && wanted > Gross(book[..m])
    requires if side == Buy then better == 0.5 && worse == 2.0 else better == 2.0 && worse == 0.5
    ensures var levels := Priced(book, m, i, better, worse);
      && wanted - LimitLeft(side, levels, 1.0, wanted) == Total(book[..m])
      && LimitCost(side, levels, 1.0, wanted)
         == Total(book[..m]) + if 0 <= i < m then (better - 1.0) * book[i].quantity else 0.0
  {
    hide LimitLeft, LimitCost;
    var levels := Priced(book, m, i, better, worse);
    if m == 0 {
      NothingTraded(side, levels, 1.0, wanted);
    } else {
      GrossCovers(book[..m][1..]);
      assert book[..m][1..] == book[1..][..m - 1];
      assert levels[1..] == Priced(book[1..], m - 1, i - 1, better, worse);
      TakesAll(side, book[1..], m - 1, i - 1, better, worse, wanted - book[0].quantity);
      LevelTraded(side, levels, 1.0, wanted);
    }
  }

  /** A negative size lets a buy limited to 10 pay an average of 14.50. */
  lemma NegativeSizeBreaksLimit()
    ensures var asks := [PriceLevel(1.0, -1.0), PriceLevel(10.0, 5.0)];
      LimitLeft(Buy, asks, 10.0, 2.0) == 0.0 && LimitCost(Buy, asks, 10.0, 2.0) == 29.0
  {
    var asks := [PriceLevel(1.0, -1.0), PriceLevel(10.0, 5.0)];
    assert asks[1..] == [PriceLevel(10.0, 5.0)];
    assert LimitCost(Buy, asks[1..], 10.0, 3.0) == 30.0;
  }
}
