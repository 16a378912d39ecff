/** The greedy walk over one side of a book: what it fills, what it costs, and
    why no other way of filling the same quantity is better
    (src/orderbook/depth_analyzer.cpp). */
module DepthWalk {
  import opened Types
  import opened RealFacts

  /** What is still unfilled after the walk. */
  function Remaining(levels: seq<PriceLevel>, quantity: real): real {
    if levels == [] || quantity <= 0.0 then quantity
    else if quantity <= levels[0].quantity then 0.0
    else Remaining(levels[1..], quantity - levels[0].quantity)
  }

  function Notional(quantity: real, price: real): real {
    quantity * price
  }

  /** The sum of price times fill over the walk. */
  function Cost(levels: seq<PriceLevel>, quantity: real): real {
    if levels == [] || quantity <= 0.0 then 0.0
    else if quantity <= levels[0].quantity then Notional(quantity, levels[0].price)
    else Notional(levels[0].quantity, levels[0].price) + Cost(levels[1..], quantity - levels[0].quantity)
  }

  function Total(levels: seq<PriceLevel>): real {
    if levels == [] then 0.0 else levels[0].quantity + Total(levels[1..])
  }

  ghost predicate PositiveSizes(levels: seq<PriceLevel>) {
    forall i :: 0 <= i < |levels| ==> levels[i].quantity > 0.0
  }

  ghost predicate PositivePrices(levels: seq<PriceLevel>) {
    forall i :: 0 <= i < |levels| ==> levels[i].price > 0.0
  }

  ghost predicate Ascending(levels: seq<PriceLevel>) {
    forall i, j :: 0 <= i < j < |levels| ==> levels[i].price <= levels[j].price
  }

  ghost predicate Descending(levels: seq<PriceLevel>) {
    forall i, j :: 0 <= i < j < |levels| ==> levels[i].price >= levels[j].price
  }

  ghost predicate GoodAsks(asks: seq<PriceLevel>) {
    PositiveSizes(asks) && PositivePrices(asks) && Ascending(asks)
  }

  ghost predicate GoodBids(bids: seq<PriceLevel>) {
    PositiveSizes(bids) && PositivePrices(bids) && Descending(bids)
  }

  lemma {:induction false} TotalNonNegative(levels: seq<PriceLevel>)
    requires PositiveSizes(levels)
    ensures Total(levels) >= 0.0
    ensures levels != [] ==> Total(levels) > 0.0
  {
    if levels != [] {
      TotalNonNegative(levels[1..]);
    }
  }

  /** The walk fills the smaller of the request and the depth of the book. */
  lemma {:induction false} RemainingIsShortfall(levels: seq<PriceLevel>, quantity: real)
    requires PositiveSizes(levels) && quantity >= 0.0
    ensures Remaining(levels, quantity) == if quantity <= Total(levels) then 0.0 else quantity - Total(levels)
  {
    TotalNonNegative(levels);
    if levels != [] && quantity > 0.0 {
      TotalNonNegative(levels[1..]);
      if quantity > levels[0].quantity {
        RemainingIsShortfall(levels[1..], quantity - levels[0].quantity);
      }
    }
  }

  // ----- splits of a quantity over the levels -----

  /** One way of filling: `split[i]` is taken from level i. */
  ghost predicate IsSplit(levels: seq<PriceLevel>, split: seq<real>) {
    && |split| == |levels|
    && forall i :: 0 <= i < |split| ==> 0.0 <= split[i] <= levels[i].quantity
  }

  ghost function Sum(split: seq<real>): real {
    if split == [] then 0.0 else split[0] + Sum(split[1..])
  }

  ghost function SplitCost(levels: seq<PriceLevel>, split: seq<real>): real
    requires |split| == |levels|
  {
    if levels == [] then 0.0 else Notional(split[0], levels[0].price) + SplitCost(levels[1..], split[1..])
  }

  /** The split the walk itself makes. */
  ghost function GreedySplit(levels: seq<PriceLevel>, quantity: real): (split: seq<real>)
    ensures |split| == |levels|
  {
    if levels == [] then []
    else
      var fill := Min(quantity, levels[0].quantity);
      [fill] + GreedySplit(levels[1..], quantity - fill)
  }

  lemma {:induction false} GreedyIsSplit(levels: seq<PriceLevel>, quantity: real)
    requires PositiveSizes(levels) && quantity >= 0.0
    ensures IsSplit(levels, GreedySplit(levels, quantity))
    ensures Sum(GreedySplit(levels, quantity)) == quantity - Remaining(levels, quantity)
    ensures SplitCost(levels, GreedySplit(levels, quantity)) == Cost(levels, quantity)
  {
    if levels != [] {
      hide Sum, SplitCost, Cost, Remaining, GreedySplit, IsSplit, Notional;
      GreedyStep(levels, quantity);
      if quantity <= levels[0].quantity {
        GreedyIsSplit(levels[1..], 0.0);
        ZeroWalk(levels[1..]);
        SplitHead(levels, quantity, GreedySplit(levels[1..], 0.0));
        OneLevelWalk(levels, quantity);
      } else {
        var size, rest := levels[0].quantity, GreedySplit(levels[1..], quantity - levels[0].quantity);
        GreedyIsSplit(levels[1..], quantity - size);
        SplitHead(levels, size, rest);
        WalkStep(levels, quantity);
      }
    }
  }

  lemma GreedyStep(levels: seq<PriceLevel>, quantity: real)
    requires levels != []
    ensures GreedySplit(levels, quantity)
         == if quantity <= levels[0].quantity then [quantity] + GreedySplit(levels[1..], 0.0)
            else [levels[0].quantity] + GreedySplit(levels[1..], quantity - levels[0].quantity)
  {
  }

  lemma SplitHead(levels: seq<PriceLevel>, fill: real, rest: seq<real>)
    requires levels != [] && |rest| == |levels| - 1
    ensures Sum([fill] + rest) == fill + Sum(rest)
    ensures SplitCost(levels, [fill] + rest) == Notional(fill, levels[0].price) + SplitCost(levels[1..], rest)
    ensures IsSplit(levels[1..], rest) && 0.0 <= fill <= levels[0].quantity ==> IsSplit(levels, [fill] + rest)
  {
    assert ([fill] + rest)[1..] == rest;
  }

  lemma ZeroWalk(levels: seq<PriceLevel>)
    ensures Remaining(levels, 0.0) == 0.0 && Cost(levels, 0.0) == 0.0
  {
  }

  lemma {:induction false} SplitCostAtLeast(levels: seq<PriceLevel>, split: seq<real>, floor: real)
    requires IsSplit(levels, split)
    requires forall i :: 0 <= i < |levels| ==> floor <= levels[i].price
    ensures floor * Sum(split) <= SplitCost(levels, split)
  {
    if levels != [] {
      SplitCostAtLeast(levels[1..], split[1..], floor);
      MulMonotone(split[0], floor, levels[0].price);
    }
  }

  /** The exchange argument. Whatever a split takes beyond `quantity` can be
      given back at no less than the cheapest price, and the rest costs no less
      than the walk. */
  lemma {:induction false} ExchangeBound(levels: seq<PriceLevel>, split: seq<real>, quantity: real, excess: real,
                                         floor: real)
    requires PositiveSizes(levels) && Ascending(levels) && IsSplit(levels, split)
    requires quantity >= 0.0 && excess >= 0.0 && Sum(split) == quantity + excess
    requires levels != [] ==> floor <= levels[0].price
    ensures Cost(levels, quantity) + floor * excess <= SplitCost(levels, split)
  {
    hide Cost, SplitCost;
    if levels == [] {
      EmptyWalk(levels, split, quantity);
    } else if quantity <= levels[0].quantity {
      OneLevelWalk(levels, quantity);
      SplitCostAtLeast(levels, split, levels[0].price);
      OneLevelSuffices(levels[0].price, floor, quantity, excess, Sum(split), SplitCost(levels, split));
    } else {
      var rest := levels[1..];
      var size, price, taken := levels[0].quantity, levels[0].price, split[0];
      WalkStep(levels, quantity);
      SplitStep(levels, split);
      var restExcess := excess + size - taken;
      ExchangeBound(rest, split[1..], quantity - size, restExcess, price);
      WholeLevelTaken(price, floor, size, taken, excess, restExcess, Cost(rest, quantity - size),
                      SplitCost(rest, split[1..]));
    }
  }

  lemma EmptyWalk(levels: seq<PriceLevel>, split: seq<real>, quantity: real)
    requires levels == [] && split == []
    ensures Cost(levels, quantity) == 0.0 == SplitCost(levels, split) && Sum(split) == 0.0
  {
  }

  lemma OneLevelWalk(levels: seq<PriceLevel>, quantity: real)
    requires levels != [] && 0.0 <= quantity <= levels[0].quantity
    ensures Cost(levels, quantity) == Notional(quantity, levels[0].price) && Remaining(levels, quantity) == 0.0
  {
  }

  lemma WalkStep(levels: seq<PriceLevel>, quantity: real)
    requires levels != [] && 0.0 < levels[0].quantity < quantity
    ensures Cost(levels, quantity)
         == Notional(levels[0].quantity, levels[0].price) + Cost(levels[1..], quantity - levels[0].quantity)
    ensures Remaining(levels, quantity) == Remaining(levels[1..], quantity - levels[0].quantity)
  {
  }

  lemma SplitStep(levels: seq<PriceLevel>, split: seq<real>)
    requires levels != [] && |split| == |levels|
    ensures SplitCost(levels, split) == Notional(split[0], levels[0].price) + SplitCost(levels[1..], split[1..])
    ensures Sum(split) == split[0] + Sum(split[1..])
  {
    hide Notional;
  }

  lemma OneLevelSuffices(price: real, floor: real, quantity: real, excess: real, total: real, cost: real)
    requires floor <= price && excess >= 0.0 && total == quantity + excess && price * total <= cost
    ensures quantity * price + floor * excess <= cost
  {
    MulMonotone(excess, floor, price);
    Distribute(price, quantity, excess);
  }

  lemma WholeLevelTaken(price: real, floor: real, size: real, taken: real, excess: real, restExcess: real,
                        restWalk: real, restCost: real)
    requires floor <= price && excess >= 0.0 && restExcess == excess + size - taken
    requires restWalk + price * restExcess <= restCost
    ensures size * price + restWalk + floor * excess <= taken * price + restCost
  {
    MulMonotone(excess, floor, price);
    Distribute(price, excess, size - taken);
    Distribute(price, size, -taken);
  }

  /** Among all splits with the same total the walk over ascending prices is cheapest. */
  lemma BuyWalkIsCheapest(asks: seq<PriceLevel>, quantity: real, split: seq<real>)
    requires PositiveSizes(asks) && Ascending(asks) && quantity >= 0.0
    requires IsSplit(asks, split) && Sum(split) == quantity - Remaining(asks, quantity)
    ensures Cost(asks, quantity) <= SplitCost(asks, split)
  {
    var filled := Sum(split);
    SumNonNegative(asks, split);
    CostStopsAtDepth(asks, quantity);
    if asks != [] {
      ExchangeBound(asks, split, filled, 0.0, asks[0].price);
    }
  }

  lemma {:induction false} SumNonNegative(levels: seq<PriceLevel>, split: seq<real>)
    requires IsSplit(levels, split)
    ensures 0.0 <= Sum(split) <= Total(levels)
  {
    if levels != [] {
      SumNonNegative(levels[1..], split[1..]);
    }
  }

  /** Asking for more than the depth costs what the depth costs. */
  lemma {:induction false} CostStopsAtDepth(levels: seq<PriceLevel>, quantity: real)
    requires PositiveSizes(levels) && quantity >= 0.0
    ensures Cost(levels, quantity) == Cost(levels, quantity - Remaining(levels, quantity))
  {
    RemainingIsShortfall(levels, quantity);
    if levels != [] && quantity > Total(levels) {
      var rest := levels[1..];
      TotalNonNegative(rest);
      RemainingIsShortfall(rest, quantity - levels[0].quantity);
      CostStopsAtDepth(rest, quantity - levels[0].quantity);
    }
  }

  // ----- the bid side is the ask side at negated prices -----

  ghost function Negated(levels: seq<PriceLevel>): (r: seq<PriceLevel>)
    ensures |r| == |levels|
    ensures forall i :: 0 <= i < |r| ==> r[i] == PriceLevel(-levels[i].price, levels[i].quantity)
  {
    if levels == [] then [] else [PriceLevel(-levels[0].price, levels[0].quantity)] + Negated(levels[1..])
  }

  lemma {:induction false} NegatedWalk(levels: seq<PriceLevel>, quantity: real)
    ensures Cost(Negated(levels), quantity) == -Cost(levels, quantity)
    ensures Remaining(Negated(levels), quantity) == Remaining(levels, quantity)
  {
    if levels != [] && quantity > 0.0 {
      assert Negated(levels)[1..] == Negated(levels[1..]);
      NegatedWalk(levels[1..], quantity - levels[0].quantity);
    }
  }

  lemma {:induction false} NegatedSplit(levels: seq<PriceLevel>, split: seq<real>)
    requires |split| == |levels|
    ensures SplitCost(Negated(levels), split) == -SplitCost(levels, split)
  {
    if levels != [] {
      assert Negated(levels)[1..] == Negated(levels[1..]);
      NegatedSplit(levels[1..], split[1..]);
    }
  }

  lemma SplitCostAtMost(levels: seq<PriceLevel>, split: seq<real>, ceiling: real)
    requires IsSplit(levels, split)
    requires forall i :: 0 <= i < |levels| ==> levels[i].price <= ceiling
    ensures SplitCost(levels, split) <= ceiling * Sum(split)
  {
    hide SplitCost, Sum;
    NegatedSplit(levels, split);
    SplitCostAtLeast(Negated(levels), split, -ceiling);
    Distribute(Sum(split), ceiling, -ceiling);
  }

  /** Among all splits with the same total the walk over descending prices earns most. */
  lemma SellWalkEarnsMost(bids: seq<PriceLevel>, quantity: real, split: seq<real>)
    requires PositiveSizes(bids) && Descending(bids) && quantity >= 0.0
    requires IsSplit(bids, split) && Sum(split) == quantity - Remaining(bids, quantity)
    ensures SplitCost(bids, split) <= Cost(bids, quantity)
  {
    hide Cost, SplitCost, Sum;
    NegatedWalk(bids, quantity);
    NegatedSplit(bids, split);
    BuyWalkIsCheapest(Negated(bids), quantity, split);
  }

  // ----- average prices -----

  ghost function Scaled(split: seq<real>, factor: real): (r: seq<real>)
    ensures |r| == |split|
    ensures forall i :: 0 <= i < |r| ==> r[i] == factor * split[i]
  {
    if split == [] then [] else [factor * split[0]] + Scaled(split[1..], factor)
  }

  lemma ScaledIsSplit(levels: seq<PriceLevel>, split: seq<real>, factor: real)
    requires IsSplit(levels, split) && 0.0 <= factor <= 1.0
    ensures IsSplit(levels, Scaled(split, factor))
  {
    hide Scaled;
    forall i | 0 <= i < |split| ensures 0.0 <= Scaled(split, factor)[i] <= levels[i].quantity {
      FractionOf(split[i], factor, levels[i].quantity);
    }
  }

  lemma FractionOf(x: real, factor: real, size: real)
    requires 0.0 <= x <= size && 0.0 <= factor <= 1.0
    ensures 0.0 <= factor * x <= size
  {
    MulMonotone(x, 0.0, factor);
    MulMonotone(x, factor, 1.0);
  }

  lemma {:induction false} ScaledSplit(levels: seq<PriceLevel>, split: seq<real>, factor: real, sum: real, cost: real)
    requires |split| == |levels|
    requires sum == Sum(split) && cost == SplitCost(levels, split)
    ensures Sum(Scaled(split, factor)) == factor * sum
    ensures SplitCost(levels, Scaled(split, factor)) == factor * cost
  {
    if levels != [] {
      var restSum, restCost := Sum(split[1..]), SplitCost(levels[1..], split[1..]);
      ScaledSplit(levels[1..], split[1..], factor, restSum, restCost);
      assert Scaled(split, factor)[1..] == Scaled(split[1..], factor);
      Distribute(factor, split[0], restSum);
      Distribute(factor, split[0] * levels[0].price, restCost);
      Associate(factor, split[0], levels[0].price);
    }
  }

  ghost function Vwap(levels: seq<PriceLevel>, quantity: real): real
    requires quantity > 0.0
  {
    Cost(levels, quantity) / quantity
  }

  /** The average price paid never falls when more is bought: the dearer walk,
      scaled down, is a split of the smaller quantity. */
  lemma BuyVwapRises(asks: seq<PriceLevel>, small: real, large: real)
    requires PositiveSizes(asks) && Ascending(asks)
    requires 0.0 < small <= large <= Total(asks)
    ensures Vwap(asks, small) <= Vwap(asks, large)
  {
    hide Cost, Total;
    var factor := Fraction(small, large);
    ScaledDownWalk(asks, small, large, factor);
    RatioOrder(Cost(asks, small), small, Cost(asks, large), large, factor);
  }

  lemma ScaledDownWalk(asks: seq<PriceLevel>, small: real, large: real, factor: real)
    requires PositiveSizes(asks) && Ascending(asks)
    requires 0.0 < small <= large <= Total(asks)
    requires 0.0 <= factor <= 1.0 && factor * large == small
    ensures Cost(asks, small) <= factor * Cost(asks, large)
  {
    hide Cost, SplitCost, Sum, Remaining;
    var split := GreedySplit(asks, large);
    assert IsSplit(asks, split) && Sum(split) == large && SplitCost(asks, split) == Cost(asks, large) by {
      RemainingIsShortfall(asks, large);
      GreedyIsSplit(asks, large);
    }
    ScaledIsSplit(asks, split, factor);
    ScaledSplit(asks, split, factor, large, Cost(asks, large));
    RemainingIsShortfall(asks, small);
    BuyWalkIsCheapest(asks, small, Scaled(split, factor));
  }

  /** The average price received never rises when more is sold. */
  lemma SellVwapFalls(bids: seq<PriceLevel>, small: real, large: real)
    requires PositiveSizes(bids) && Descending(bids)
    requires 0.0 < small <= large <= Total(bids)
    ensures Vwap(bids, small) >= Vwap(bids, large)
  {
    hide Cost, Total;
    var factor := Fraction(small, large);
    ScaledUpWalk(bids, small, large, factor);
    RatioOrderDown(Cost(bids, small), small, Cost(bids, large), large, factor);
  }

  lemma ScaledUpWalk(bids: seq<PriceLevel>, small: real, large: real, factor: real)
    requires PositiveSizes(bids) && Descending(bids)
    requires 0.0 < small <= large <= Total(bids)
    requires 0.0 <= factor <= 1.0 && factor * large == small
    ensures Cost(bids, small) >= factor * Cost(bids, large)
  {
    hide Cost, SplitCost, Sum, Remaining;
    var split := GreedySplit(bids, large);
    assert IsSplit(bids, split) && Sum(split) == large && SplitCost(bids, split) == Cost(bids, large) by {
      RemainingIsShortfall(bids, large);
      GreedyIsSplit(bids, large);
    }
    ScaledIsSplit(bids, split, factor);
    ScaledSplit(bids, split, factor, large, Cost(bids, large));
    RemainingIsShortfall(bids, small);
    SellWalkEarnsMost(bids, small, Scaled(split, factor));
  }

  /** No average is better than the best level. */
  lemma BuyVwapAtLeastTop(asks: seq<PriceLevel>, quantity: real)
    requires PositiveSizes(asks) && Ascending(asks) && 0.0 < quantity <= Total(asks)
    ensures asks != [] && asks[0].price <= Vwap(asks, quantity)
  {
    hide Cost, SplitCost, Sum, Remaining;
    RemainingIsShortfall(asks, quantity);
    GreedyIsSplit(asks, quantity);
    SplitCostAtLeast(asks, GreedySplit(asks, quantity), asks[0].price);
    AtLeastByCost(asks[0].price, Cost(asks, quantity), quantity);
  }

  lemma AtLeastByCost(price: real, cost: real, quantity: real)
    requires quantity > 0.0 && price * quantity <= cost
    ensures price <= cost / quantity
  {
    QuotientTimes(cost, quantity);
    QuotientOrder(price, cost / quantity, quantity);
  }

  lemma AtMostByCost(price: real, cost: real, quantity: real)
    requires quantity > 0.0 && cost <= price * quantity
    ensures cost / quantity <= price
  {
    QuotientTimes(cost, quantity);
    QuotientOrder(cost / quantity, price, quantity);
  }

  lemma SellVwapAtMostTop(bids: seq<PriceLevel>, quantity: real)
    requires PositiveSizes(bids) && Descending(bids) && 0.0 < quantity <= Total(bids)
    ensures bids != [] && Vwap(bids, quantity) <= bids[0].price
  {
    SellCostAtMostTop(bids, quantity);
    AtMostByCost(bids[0].price, Cost(bids, quantity), quantity);
  }

  lemma SellCostAtMostTop(bids: seq<PriceLevel>, quantity: real)
    requires PositiveSizes(bids) && Descending(bids) && 0.0 < quantity <= Total(bids)
    ensures bids != [] && Cost(bids, quantity) <= bids[0].price * quantity
  {
    hide Cost, SplitCost, Sum, Remaining;
    RemainingIsShortfall(bids, quantity);
    GreedyIsSplit(bids, quantity);
    SplitCostAtMost(bids, GreedySplit(bids, quantity), bids[0].price);
  }

  /** With positive prices what is paid or received is positive. */
  lemma {:induction false} CostPositive(levels: seq<PriceLevel>, quantity: real)
    requires PositiveSizes(levels) && PositivePrices(levels)
    ensures Cost(levels, quantity) >= 0.0
    ensures levels != [] && quantity > 0.0 ==> Cost(levels, quantity) > 0.0
  {
    if levels != [] && quantity > 0.0 {
      CostPositive(levels[1..], quantity - levels[0].quantity);
      MulPositive(quantity, levels[0].price);
      MulPositive(levels[0].quantity, levels[0].price);
    }
  }
}
