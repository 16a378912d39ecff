/** One side of an order book as a sorted vector of levels, edited in place
    through a lower-bound search, and the price-to-quantity map it stands for
    (src/orderbook/order_book.cpp). `descending` is true for bids. */
module PriceLevels {
  import opened Types
  import opened DepthWalk

  const TOLERANCE := 0.000000001

  function Abs(x: real): real {
    if x < 0.0 then -x else x
  }

  /** A level priced `a` belongs strictly before a level priced `b`. */
  predicate Before(descending: bool, a: real, b: real) {
    if descending then a > b else a < b
  }

  ghost predicate Sorted(descending: bool, v: seq<PriceLevel>) {
    forall i, j :: 0 <= i < j < |v| ==> !Before(descending, v[j].price, v[i].price)
  }

  ghost predicate StrictlySorted(descending: bool, v: seq<PriceLevel>) {
    forall i, j :: 0 <= i < j < |v| ==> Before(descending, v[i].price, v[j].price)
  }

  ghost predicate GoodSide(descending: bool, v: seq<PriceLevel>) {
    Sorted(descending, v) && PositiveSizes(v)
  }

  // ----- the lower bound -----

  /** How many leading levels belong strictly before `price`. */
  function LowerBound(descending: bool, v: seq<PriceLevel>, price: real): (i: nat)
    ensures i <= |v|
    ensures forall k :: 0 <= k < i ==> Before(descending, v[k].price, price)
    ensures i < |v| ==> !Before(descending, v[i].price, price)
  {
    if v == [] || !Before(descending, v[0].price, price) then 0
    else 1 + LowerBound(descending, v[1..], price)
  }

  lemma LowerBoundUnique(descending: bool, v: seq<PriceLevel>, price: real, i: nat)
    requires i <= |v|
    requires forall k :: 0 <= k < i ==> Before(descending, v[k].price, price)
    requires i < |v| ==> !Before(descending, v[i].price, price)
    ensures LowerBound(descending, v, price) == i
  {
  }

  method FindLowerBound(descending: bool, v: seq<PriceLevel>, price: real) returns (i: nat)
    requires Sorted(descending, v)
    ensures i == LowerBound(descending, v, price)
  {
    i := 0;
    var count := |v|;
    while count > 0
      invariant 0 <= count && i + count <= |v|
      invariant forall k :: 0 <= k < i ==> Before(descending, v[k].price, price)
      invariant i + count < |v| ==> !Before(descending, v[i + count].price, price)
    {
      var half := count / 2;
      if Before(descending, v[i + half].price, price) {
        i := i + half + 1;
        count := count - half - 1;
      } else {
        count := half;
      }
    }
    LowerBoundUnique(descending, v, price, i);
  }

  // ----- one update -----

  function Insert(v: seq<PriceLevel>, i: nat, level: PriceLevel): seq<PriceLevel>
    requires i <= |v|
  {
    v[..i] + [level] + v[i..]
  }

  function Erase(v: seq<PriceLevel>, i: nat): seq<PriceLevel>
    requires i < |v|
  {
    v[..i] + v[i + 1..]
  }

  /** The tolerance is tried on the lower bound only, so a stored price just
      before the updated one is never matched. */
  predicate Matches(v: seq<PriceLevel>, i: nat, price: real) {
    i < |v| && Abs(v[i].price - price) < TOLERANCE
  }

  function Apply(descending: bool, v: seq<PriceLevel>, level: PriceLevel): seq<PriceLevel> {
    var i := LowerBound(descending, v, level.price);
    if Matches(v, i, level.price) then
      if level.quantity <= 0.0 then Erase(v, i) else v[i := PriceLevel(v[i].price, level.quantity)]
    else if level.quantity > 0.0 then Insert(v, i, level)
    else v
  }

  method UpdateVec(descending: bool, v: seq<PriceLevel>, level: PriceLevel) returns (r: seq<PriceLevel>)
    requires Sorted(descending, v)
    ensures r == Apply(descending, v, level)
  {
    var it := FindLowerBound(descending, v, level.price);
    r := v;
    if it != |v| && Abs(v[it].price - level.price) < TOLERANCE {
      if level.quantity <= 0.0 {
        r := v[..it] + v[it + 1..];
      } else {
        r := v[it := PriceLevel(v[it].price, level.quantity)];
      }
    } else if level.quantity > 0.0 {
      r := v[..it] + [level] + v[it..];
    }
  }

  lemma AfterLowerBound(descending: bool, v: seq<PriceLevel>, price: real)
    requires Sorted(descending, v)
    ensures forall k :: LowerBound(descending, v, price) <= k < |v| ==> !Before(descending, v[k].price, price)
  {
  }

  lemma InsertAt(v: seq<PriceLevel>, i: nat, level: PriceLevel, k: nat)
    requires i <= |v| && k <= |v|
    ensures |Insert(v, i, level)| == |v| + 1
    ensures Insert(v, i, level)[k] == if k < i then v[k] else if k == i then level else v[k - 1]
  {
  }

  lemma EraseAt(v: seq<PriceLevel>, i: nat, k: nat)
    requires i < |v| && k < |v| - 1
    ensures |Erase(v, i)| == |v| - 1
    ensures Erase(v, i)[k] == if k < i then v[k] else v[k + 1]
  {
  }

  lemma InsertKeepsSorted(descending: bool, v: seq<PriceLevel>, level: PriceLevel)
    requires Sorted(descending, v)
    ensures Sorted(descending, Insert(v, LowerBound(descending, v, level.price), level))
  {
    hide LowerBound, Insert;
    var i := LowerBound(descending, v, level.price);
    AfterLowerBound(descending, v, level.price);
    var w := Insert(v, i, level);
    InsertAt(v, i, level, 0);
    forall a, b | 0 <= a < b < |w| ensures !Before(descending, w[b].price, w[a].price) {
      InsertAt(v, i, level, a);
      InsertAt(v, i, level, b);
    }
  }

  lemma InsertKeepsStrict(descending: bool, v: seq<PriceLevel>, level: PriceLevel)
    requires StrictlySorted(descending, v) && Sorted(descending, v)
    requires var i := LowerBound(descending, v, level.price); i < |v| ==> v[i].price != level.price
    ensures StrictlySorted(descending, Insert(v, LowerBound(descending, v, level.price), level))
  {
    hide LowerBound, Insert;
    var i := LowerBound(descending, v, level.price);
    AfterLowerBound(descending, v, level.price);
    var w := Insert(v, i, level);
    InsertAt(v, i, level, 0);
    forall a, b | 0 <= a < b < |w| ensures Before(descending, w[a].price, w[b].price) {
      InsertAt(v, i, level, a);
      InsertAt(v, i, level, b);
    }
  }

  lemma EraseKeepsOrder(descending: bool, v: seq<PriceLevel>, i: nat)
    requires i < |v|
    ensures Sorted(descending, v) ==> Sorted(descending, Erase(v, i))
    ensures StrictlySorted(descending, v) ==> StrictlySorted(descending, Erase(v, i))
  {
    hide Erase;
    var w := Erase(v, i);
    if |v| > 1 {
      EraseAt(v, i, 0);
    }
    assert |w| == |v| - 1 by { EraseLength(v, i); }
    forall a, b | 0 <= a < b < |w|
      ensures Sorted(descending, v) ==> !Before(descending, w[b].price, w[a].price)
      ensures StrictlySorted(descending, v) ==> Before(descending, w[a].price, w[b].price)
    {
      EraseAt(v, i, a);
      EraseAt(v, i, b);
    }
  }

  lemma EraseLength(v: seq<PriceLevel>, i: nat)
    requires i < |v|
    ensures |Erase(v, i)| == |v| - 1
    ensures PositiveSizes(v) ==> PositiveSizes(Erase(v, i))
  {
  }

  lemma InsertKeepsSizes(v: seq<PriceLevel>, i: nat, level: PriceLevel)
    requires i <= |v| && PositiveSizes(v) && level.quantity > 0.0
    ensures PositiveSizes(Insert(v, i, level))
  {
  }

  lemma ApplyKeepsGood(descending: bool, v: seq<PriceLevel>, level: PriceLevel)
    requires GoodSide(descending, v)
    ensures GoodSide(descending, Apply(descending, v, level))
  {
    hide LowerBound, Insert, Erase;
    var i := LowerBound(descending, v, level.price);
    if i < |v| {
      EraseKeepsOrder(descending, v, i);
      EraseLength(v, i);
    }
    if level.quantity > 0.0 {
      InsertKeepsSizes(v, i, level);
    }
    InsertKeepsSorted(descending, v, level);
  }

  lemma ApplyKeepsStrict(descending: bool, v: seq<PriceLevel>, level: PriceLevel)
    requires StrictlySorted(descending, v)
    ensures StrictlySorted(descending, Apply(descending, v, level))
  {
    hide LowerBound, Insert, Erase;
    var i := LowerBound(descending, v, level.price);
    StrictIsDistinct(descending, v);
    if i < |v| {
      EraseKeepsOrder(descending, v, i);
    }
    if !Matches(v, i, level.price) {
      InsertKeepsStrict(descending, v, level);
    }
  }

  function ApplyAll(descending: bool, v: seq<PriceLevel>, updates: seq<PriceLevel>): seq<PriceLevel>
    decreases |updates|
  {
    if updates == [] then v else ApplyAll(descending, Apply(descending, v, updates[0]), updates[1..])
  }

  lemma {:induction false} ApplyAllKeepsGood(descending: bool, v: seq<PriceLevel>, updates: seq<PriceLevel>)
    requires GoodSide(descending, v)
    ensures GoodSide(descending, ApplyAll(descending, v, updates))
    decreases |updates|
  {
    if updates != [] {
      ApplyKeepsGood(descending, v, updates[0]);
      ApplyAllKeepsGood(descending, Apply(descending, v, updates[0]), updates[1..]);
    }
  }

  method UpdateAll(descending: bool, v: seq<PriceLevel>, updates: seq<PriceLevel>) returns (r: seq<PriceLevel>)
    requires GoodSide(descending, v)
    ensures r == ApplyAll(descending, v, updates)
  {
    r := v;
    for i := 0 to |updates|
      invariant GoodSide(descending, r)
      invariant ApplyAll(descending, r, updates[i..]) == ApplyAll(descending, v, updates)
    {
      assert updates[i..][1..] == updates[i + 1..];
      ApplyKeepsGood(descending, r, updates[i]);
      r := UpdateVec(descending, r, updates[i]);
    }
  }

  // ----- the map a side stands for -----

  ghost function ToMap(v: seq<PriceLevel>): map<real, real> {
    if v == [] then map[] else ToMap(v[1..])[v[0].price := v[0].quantity]
  }

  /** An update of the map: a quantity of zero or less deletes, any other overwrites. */
  ghost function MapUpdate(m: map<real, real>, level: PriceLevel): map<real, real> {
    if level.quantity <= 0.0 then m - {level.price} else m[level.price := level.quantity]
  }

  ghost function MapFold(m: map<real, real>, updates: seq<PriceLevel>): map<real, real>
    decreases |updates|
  {
    if updates == [] then m else MapFold(MapUpdate(m, updates[0]), updates[1..])
  }

  ghost predicate DistinctPrices(v: seq<PriceLevel>) {
    forall i, j :: 0 <= i < j < |v| ==> v[i].price != v[j].price
  }

  ghost predicate HasPrice(v: seq<PriceLevel>, price: real) {
    exists i :: 0 <= i < |v| && v[i].price == price
  }

  lemma {:induction false} ToMapKeys(v: seq<PriceLevel>, price: real)
    ensures price in ToMap(v) <==> HasPrice(v, price)
  {
    if v != [] {
      ToMapKeys(v[1..], price);
      if HasPrice(v, price) {
        var i :| 0 <= i < |v| && v[i].price == price;
        assert i > 0 ==> v[1..][i - 1].price == price;
      }
      if HasPrice(v[1..], price) {
        var i :| 0 <= i < |v[1..]| && v[1..][i].price == price;
        assert v[i + 1].price == price;
      }
    }
  }

  lemma {:induction false} ToMapValue(v: seq<PriceLevel>, i: nat)
    requires DistinctPrices(v) && i < |v|
    ensures v[i].price in ToMap(v) && ToMap(v)[v[i].price] == v[i].quantity
  {
    if i > 0 {
      ToMapValue(v[1..], i - 1);
    }
  }

  /** Same entries, same map: the levels and the map answer every price alike. */
  lemma MapByEntries(v: seq<PriceLevel>, m: map<real, real>)
    requires DistinctPrices(v)
    requires forall p :: p in m ==> HasPrice(v, p)
    requires forall i :: 0 <= i < |v| ==> v[i].price in m && m[v[i].price] == v[i].quantity
    ensures ToMap(v) == m
  {
    forall p ensures p in ToMap(v) <==> p in m {
      ToMapKeys(v, p);
    }
    forall p | p in m ensures ToMap(v)[p] == m[p] {
      var i :| 0 <= i < |v| && v[i].price == p;
      ToMapValue(v, i);
    }
  }

  // ----- when an update of the levels is an update of the map -----

  /** The lower bound is a different price that is nevertheless within tolerance. */
  predicate NearMiss(descending: bool, v: seq<PriceLevel>, price: real) {
    var i := LowerBound(descending, v, price);
    i < |v| && 0.0 < Abs(v[i].price - price) < 0.000000001
  }

  /** What an update does to the level at the lower bound, near miss or not: within
      the tolerance that level loses its place or gets the new quantity and keeps
      its own price, and beyond it a positive quantity gets a place of its own. */
  lemma ApplyAtLowerBound(descending: bool, v: seq<PriceLevel>, level: PriceLevel, i: nat)
    requires Sorted(descending, v) && i <= |v|
    requires i > 0 ==> Before(descending, v[i - 1].price, level.price)
    requires i < |v| ==> !Before(descending, v[i].price, level.price)
    ensures var r := Apply(descending, v, level);
      if i < |v| && -0.000000001 < v[i].price - level.price < 0.000000001 then
        r == v[..i] + (if level.quantity <= 0.0 then [] else [PriceLevel(v[i].price, level.quantity)]) + v[i + 1..]
      else
        r == v[..i] + (if level.quantity <= 0.0 then [] else [level]) + v[i..]
  {
    LowerBoundUnique(descending, v, level.price, i);
  }

  lemma ToMapEntries(v: seq<PriceLevel>)
    requires DistinctPrices(v)
    ensures forall p :: p in ToMap(v) <==> HasPrice(v, p)
    ensures forall i :: 0 <= i < |v| ==> v[i].price in ToMap(v) && ToMap(v)[v[i].price] == v[i].quantity
  {
    forall p ensures p in ToMap(v) <==> HasPrice(v, p) {
      ToMapKeys(v, p);
    }
    forall i | 0 <= i < |v| ensures v[i].price in ToMap(v) && ToMap(v)[v[i].price] == v[i].quantity {
      ToMapValue(v, i);
    }
  }

  lemma InsertRefines(v: seq<PriceLevel>, i: nat, level: PriceLevel)
    requires i <= |v| && DistinctPrices(v) && !HasPrice(v, level.price)
    ensures ToMap(Insert(v, i, level)) == ToMap(v)[level.price := level.quantity]
  {
    hide Insert, ToMap;
    var w, m := Insert(v, i, level), ToMap(v)[level.price := level.quantity];
    ToMapEntries(v);
    InsertAt(v, i, level, i);
    forall a, b | 0 <= a < b < |w| ensures w[a].price != w[b].price {
      InsertAt(v, i, level, a);
      InsertAt(v, i, level, b);
    }
    forall p | p in m ensures HasPrice(w, p) {
      if p != level.price {
        var k :| 0 <= k < |v| && v[k].price == p;
        InsertAt(v, i, level, if k < i then k else k + 1);
      }
    }
    forall k | 0 <= k < |w| ensures w[k].price in m && m[w[k].price] == w[k].quantity {
      InsertAt(v, i, level, k);
    }
    MapByEntries(w, m);
  }

  lemma EraseRefines(v: seq<PriceLevel>, i: nat)
    requires i < |v| && DistinctPrices(v)
    ensures ToMap(Erase(v, i)) == ToMap(v) - {v[i].price}
  {
    hide Erase, ToMap;
    var w, m := Erase(v, i), ToMap(v) - {v[i].price};
    ToMapEntries(v);
    EraseLength(v, i);
    forall a, b | 0 <= a < b < |w| ensures w[a].price != w[b].price {
      EraseAt(v, i, a);
      EraseAt(v, i, b);
    }
    forall p | p in m ensures HasPrice(w, p) {
      var k :| 0 <= k < |v| && v[k].price == p;
      EraseAt(v, i, if k < i then k else k - 1);
    }
    forall k | 0 <= k < |w| ensures w[k].price in m && m[w[k].price] == w[k].quantity {
      EraseAt(v, i, k);
    }
    MapByEntries(w, m);
  }

  lemma OverwriteRefines(v: seq<PriceLevel>, i: nat, quantity: real)
    requires i < |v| && DistinctPrices(v)
    ensures ToMap(v[i := PriceLevel(v[i].price, quantity)]) == ToMap(v)[v[i].price := quantity]
  {
    var w, m := v[i := PriceLevel(v[i].price, quantity)], ToMap(v)[v[i].price := quantity];
    ToMapEntries(v);
    forall p | p in m ensures HasPrice(w, p) {
      var k :| 0 <= k < |v| && v[k].price == p;
      assert w[k].price == p;
    }
    MapByEntries(w, m);
  }

  lemma StrictIsDistinct(descending: bool, v: seq<PriceLevel>)
    requires StrictlySorted(descending, v)
    ensures DistinctPrices(v) && Sorted(descending, v)
  {
  }

  /** An update of the sorted levels is the update of the map exactly when it
      is not a near miss. */
  lemma ApplyRefinesIff(descending: bool, v: seq<PriceLevel>, level: PriceLevel)
    requires StrictlySorted(descending, v)
    ensures ToMap(Apply(descending, v, level)) == MapUpdate(ToMap(v), level) <==> !NearMiss(descending, v, level.price)
  {
    var i := LowerBound(descending, v, level.price);
    var w := Apply(descending, v, level);
    ApplyKeepsStrict(descending, v, level);
    StrictIsDistinct(descending, v);
    StrictIsDistinct(descending, w);
    AfterLowerBound(descending, v, level.price);
    ToMapKeys(v, level.price);
    if Matches(v, i, level.price) {
      if level.quantity <= 0.0 {
        EraseRefines(v, i);
        ToMapValue(v, i);
      } else {
        OverwriteRefines(v, i, level.quantity);
      }
      if NearMiss(descending, v, level.price) {
        assert !HasPrice(v, level.price) by {
          assert forall k :: 0 <= k < |v| ==> v[k].price != level.price;
        }
        ToMapValue(v, i);
        assert level.quantity <= 0.0 ==> v[i].price in MapUpdate(ToMap(v), level) && v[i].price !in ToMap(w);
        assert level.quantity > 0.0 ==> level.price in MapUpdate(ToMap(v), level) && level.price !in ToMap(w);
      }
    } else {
      if level.quantity > 0.0 {
        InsertRefines(v, i, level);
      } else {
        assert ToMap(v) - {level.price} == ToMap(v);
      }
    }
  }

  /** Listed in price order a map has only one list. */
  lemma {:induction false} SortedListIsUnique(descending: bool, v: seq<PriceLevel>, w: seq<PriceLevel>)
    requires StrictlySorted(descending, v) && StrictlySorted(descending, w) && ToMap(v) == ToMap(w)
    ensures v == w
  {
    StrictIsDistinct(descending, v);
    StrictIsDistinct(descending, w);
    ToMapEntries(v);
    ToMapEntries(w);
    if v == [] || w == [] {
      EmptyMap(v);
      EmptyMap(w);
    } else {
      assert HasPrice(w, v[0].price) && HasPrice(v, w[0].price);
      assert v[0] == w[0];
      RestOfMap(v);
      RestOfMap(w);
      SortedListIsUnique(descending, v[1..], w[1..]);
    }
  }

  lemma EmptyMap(v: seq<PriceLevel>)
    ensures ToMap(v) == map[] <==> v == []
  {
    if v != [] {
      assert v[0].price in ToMap(v);
    }
  }

  lemma RestOfMap(v: seq<PriceLevel>)
    requires v != [] && DistinctPrices(v)
    ensures ToMap(v[1..]) == ToMap(v) - {v[0].price}
  {
    assert !HasPrice(v[1..], v[0].price);
    ToMapKeys(v[1..], v[0].price);
  }

  // ----- tick-separated prices -----

  ghost predicate Spaced(prices: set<real>) {
    forall a, b :: a in prices && b in prices && a != b ==> Abs(a - b) >= 0.000000001
  }

  ghost predicate PricesIn(v: seq<PriceLevel>, prices: set<real>) {
    forall i :: 0 <= i < |v| ==> v[i].price in prices
  }

  lemma SpacedHasNoNearMiss(descending: bool, v: seq<PriceLevel>, level: PriceLevel, prices: set<real>)
    requires Spaced(prices) && PricesIn(v, prices) && level.price in prices
    ensures !NearMiss(descending, v, level.price)
    ensures PricesIn(Apply(descending, v, level), prices)
  {
  }

  /** Any list of updates over tick-separated prices folds over the map. */
  lemma {:induction false} ApplyAllRefines(descending: bool, v: seq<PriceLevel>, updates: seq<PriceLevel>,
                                           prices: set<real>)
    requires StrictlySorted(descending, v)
    requires Spaced(prices) && PricesIn(v, prices) && PricesIn(updates, prices)
    ensures StrictlySorted(descending, ApplyAll(descending, v, updates))
    ensures PricesIn(ApplyAll(descending, v, updates), prices)
    ensures ToMap(ApplyAll(descending, v, updates)) == MapFold(ToMap(v), updates)
    decreases |updates|
  {
    if updates != [] {
      SpacedHasNoNearMiss(descending, v, updates[0], prices);
      ApplyRefinesIff(descending, v, updates[0]);
      ApplyKeepsStrict(descending, v, updates[0]);
      ApplyAllRefines(descending, Apply(descending, v, updates[0]), updates[1..], prices);
    }
  }

  // ----- snapshots -----

  function KeepPositive(levels: seq<PriceLevel>): (r: seq<PriceLevel>) {
    if levels == [] then []
    else (if levels[0].quantity > 0.0 then [levels[0]] else []) + KeepPositive(levels[1..])
  }

  /** What filtering and sorting a snapshot side may leave. The order of levels
      with equal prices is not fixed, because the sort is not stable. */
  ghost predicate IsSnapshotOf(descending: bool, v: seq<PriceLevel>, levels: seq<PriceLevel>) {
    Sorted(descending, v) && multiset(v) == multiset(KeepPositive(levels))
  }

  lemma {:induction false} KeepPositiveAll(levels: seq<PriceLevel>)
    ensures PositiveSizes(KeepPositive(levels))
    ensures forall l :: l in KeepPositive(levels) <==> l in levels && l.quantity > 0.0
  {
    if levels != [] {
      KeepPositiveAll(levels[1..]);
      assert levels == [levels[0]] + levels[1..];
    }
  }

  lemma SamePermutationMembers(v: seq<PriceLevel>, w: seq<PriceLevel>)
    requires multiset(v) == multiset(w)
    ensures forall l :: l in v <==> l in w
  {
    forall l ensures l in v <==> l in w {
      assert l in v <==> l in multiset(v);
      assert l in w <==> l in multiset(w);
    }
  }

  lemma SnapshotIsGood(descending: bool, v: seq<PriceLevel>, levels: seq<PriceLevel>)
    requires IsSnapshotOf(descending, v, levels)
    ensures GoodSide(descending, v)
    ensures forall l :: l in v <==> l in levels && l.quantity > 0.0
  {
    KeepPositiveAll(levels);
    SamePermutationMembers(v, KeepPositive(levels));
    forall i | 0 <= i < |v| ensures v[i].quantity > 0.0 {
      assert v[i] in v;
    }
  }

  method FilterPositive(levels: seq<PriceLevel>) returns (r: seq<PriceLevel>)
    ensures r == KeepPositive(levels)
  {
    r := [];
    for i := 0 to |levels|
      invariant r + KeepPositive(levels[i..]) == KeepPositive(levels)
    {
      assert levels[i..][1..] == levels[i + 1..];
      if levels[i].quantity > 0.0 {
        r := r + [levels[i]];
      }
    }
  }

  /** Stands for the library sort: sorted, a permutation, nothing more. */
  method Sort(descending: bool, levels: seq<PriceLevel>) returns (r: seq<PriceLevel>)
    ensures Sorted(descending, r) && multiset(r) == multiset(levels)
  {
    hide Insert, LowerBound, Sorted;
    r := [];
    EmptySorted(descending);
    for i := 0 to |levels|
      invariant Sorted(descending, r)
      invariant multiset(r) == multiset(levels[..i])
    {
      var k := FindLowerBound(descending, r, levels[i].price);
      InsertKeepsSorted(descending, r, levels[i]);
      InsertMultiset(r, k, levels[i]);
      assert levels[..i + 1] == levels[..i] + [levels[i]];
      r := Insert(r, k, levels[i]);
    }
    assert levels[..|levels|] == levels;
  }

  /** One side of apply_snapshot: filter, then sort. */
  method SnapshotSide(descending: bool, levels: seq<PriceLevel>) returns (v: seq<PriceLevel>)
    ensures IsSnapshotOf(descending, v, levels) && GoodSide(descending, v)
  {
    var kept := FilterPositive(levels);
    v := Sort(descending, kept);
    SnapshotIsGood(descending, v, levels);
  }

  lemma EmptySorted(descending: bool)
    ensures Sorted(descending, [])
  {
  }

  lemma InsertMultiset(v: seq<PriceLevel>, i: nat, level: PriceLevel)
    requires i <= |v|
    ensures multiset(Insert(v, i, level)) == multiset(v) + multiset{level}
  {
    assert v == v[..i] + v[i..];
  }
}
