/** The order book as a value, and what every stream of snapshots and deltas
    does to it (src/orderbook/order_book.cpp). */
module BookRuns {
  import opened Types
  import opened DepthWalk
  import opened PriceLevels

  datatype BookState = BookState(bids: seq<PriceLevel>, asks: seq<PriceLevel>, lastId: nat)

  datatype Delta = Delta(bidUpdates: seq<PriceLevel>, askUpdates: seq<PriceLevel>, id: nat)

  datatype Event =
    | Snapshot(bids: seq<PriceLevel>, asks: seq<PriceLevel>, id: nat)
    | Update(delta: Delta)

  const EMPTY_BOOK := BookState([], [], 0)

  ghost predicate GoodBook(s: BookState) {
    GoodSide(true, s.bids) && GoodSide(false, s.asks)
  }

  /** A snapshot is taken whatever its id. */
  ghost predicate SnapshotStep(bids: seq<PriceLevel>, asks: seq<PriceLevel>, id: nat, s': BookState) {
    IsSnapshotOf(true, s'.bids, bids) && IsSnapshotOf(false, s'.asks, asks) && s'.lastId == id
  }

  predicate Stale(s: BookState, d: Delta) {
    d.id != 0 && d.id <= s.lastId
  }

  function DeltaStep(s: BookState, d: Delta): BookState {
    if Stale(s, d) then s
    else BookState(ApplyAll(true, s.bids, d.bidUpdates), ApplyAll(false, s.asks, d.askUpdates), d.id)
  }

  ghost predicate Step(s: BookState, e: Event, s': BookState) {
    match e
    case Snapshot(bids, asks, id) => SnapshotStep(bids, asks, id, s')
    case Update(d) => s' == DeltaStep(s, d)
  }

  ghost predicate IsRun(states: seq<BookState>, events: seq<Event>) {
    && |states| == |events| + 1 && states[0] == EMPTY_BOOK
    && forall i :: 0 <= i < |events| ==> Step(states[i], events[i], states[i + 1])
  }

  lemma StepKeepsGood(s: BookState, e: Event, s': BookState)
    requires GoodBook(s) && Step(s, e, s')
    ensures GoodBook(s')
  {
    match e
    case Snapshot(bids, asks, _) =>
      SnapshotIsGood(true, s'.bids, bids);
      SnapshotIsGood(false, s'.asks, asks);
    case Update(d) =>
      ApplyAllKeepsGood(true, s.bids, d.bidUpdates);
      ApplyAllKeepsGood(false, s.asks, d.askUpdates);
  }

  /** In every state of every run both sides are in price order with positive quantities. */
  lemma {:induction false} RunKeepsGood(states: seq<BookState>, events: seq<Event>, i: nat)
    requires IsRun(states, events) && i < |states|
    ensures GoodBook(states[i])
  {
    if i > 0 {
      RunKeepsGood(states, events, i - 1);
      StepKeepsGood(states[i - 1], events[i - 1], states[i]);
    }
  }

  // ----- streams of deltas -----

  function RunDeltas(s: BookState, ds: seq<Delta>): BookState
    decreases |ds|
  {
    if ds == [] then s else DeltaStep(RunDeltas(s, ds[..|ds| - 1]), ds[|ds| - 1])
  }

  /** The ids the stream got past the staleness test, oldest first. */
  function AcceptedIds(s: BookState, ds: seq<Delta>): seq<nat>
    decreases |ds|
  {
    if ds == [] then []
    else
      var (before, d) := (ds[..|ds| - 1], ds[|ds| - 1]);
      AcceptedIds(s, before) + if Stale(RunDeltas(s, before), d) then [] else [d.id]
  }

  ghost predicate Increasing(floor: nat, ids: seq<nat>) {
    && (forall i :: 0 <= i < |ids| ==> floor < ids[i])
    && (forall i, j :: 0 <= i < j < |ids| ==> ids[i] < ids[j])
  }

  ghost predicate NoZeroId(ds: seq<Delta>) {
    forall i :: 0 <= i < |ds| ==> ds[i].id != 0
  }

  lemma {:induction false} LastIdCovers(s: BookState, ds: seq<Delta>)
    requires NoZeroId(ds)
    ensures RunDeltas(s, ds).lastId >= s.lastId
    ensures forall i :: 0 <= i < |ds| ==> ds[i].id <= RunDeltas(s, ds).lastId
    ensures Increasing(s.lastId, AcceptedIds(s, ds))
    ensures forall i :: 0 <= i < |AcceptedIds(s, ds)| ==> AcceptedIds(s, ds)[i] <= RunDeltas(s, ds).lastId
    decreases |ds|
  {
    if ds != [] {
      var before := ds[..|ds| - 1];
      LastIdCovers(s, before);
      forall i | 0 <= i < |ds| ensures ds[i].id <= RunDeltas(s, ds).lastId {
        assert i < |before| ==> ds[i] == before[i];
      }
    }
  }

  lemma {:induction false} ZeroIdBreaksOrder(s: BookState, ds: seq<Delta>)
    requires !NoZeroId(ds)
    ensures exists i :: 0 <= i < |AcceptedIds(s, ds)| && AcceptedIds(s, ds)[i] == 0
    decreases |ds|
  {
    var before, d := ds[..|ds| - 1], ds[|ds| - 1];
    var ids := AcceptedIds(s, ds);
    if d.id == 0 {
      assert ids[|ids| - 1] == 0;
    } else {
      assert !NoZeroId(before);
      ZeroIdBreaksOrder(s, before);
      var i :| 0 <= i < |AcceptedIds(s, before)| && AcceptedIds(s, before)[i] == 0;
      assert ids[i] == 0;
    }
  }

  /** The accepted ids strictly increase from the last known id exactly when
      no delta carries id 0, which is always accepted. */
  lemma AcceptedIdsIncreaseIff(s: BookState, ds: seq<Delta>)
    ensures Increasing(s.lastId, AcceptedIds(s, ds)) <==> NoZeroId(ds)
  {
    if NoZeroId(ds) {
      LastIdCovers(s, ds);
    } else {
      ZeroIdBreaksOrder(s, ds);
    }
  }

  // ----- at-least-once delivery -----

  /** `delivered` is `sent` with already delivered deltas repeated anywhere later. */
  ghost predicate IsRedelivery(sent: seq<Delta>, delivered: seq<Delta>)
    decreases |delivered|
  {
    if delivered == [] then sent == []
    else
      var before, last := delivered[..|delivered| - 1], delivered[|delivered| - 1];
      || (sent != [] && sent[|sent| - 1] == last && IsRedelivery(sent[..|sent| - 1], before))
      || (last in before && IsRedelivery(sent, before))
  }

  /** Redelivery of non-zero-id deltas changes nothing. */
  lemma {:induction false} RedeliveryIsHarmless(s: BookState, sent: seq<Delta>, delivered: seq<Delta>)
    requires IsRedelivery(sent, delivered) && NoZeroId(delivered)
    ensures RunDeltas(s, delivered) == RunDeltas(s, sent)
    decreases |delivered|
  {
    if delivered != [] {
      var before, last := delivered[..|delivered| - 1], delivered[|delivered| - 1];
      assert NoZeroId(before);
      if sent != [] && sent[|sent| - 1] == last && IsRedelivery(sent[..|sent| - 1], before) {
        RedeliveryIsHarmless(s, sent[..|sent| - 1], before);
      } else {
        RedeliveryIsHarmless(s, sent, before);
        LastIdCovers(s, before);
        var i :| 0 <= i < |before| && before[i] == last;
        assert Stale(RunDeltas(s, before), last);
      }
    }
  }

  lemma {:induction false} RedeliveredWasSent(sent: seq<Delta>, delivered: seq<Delta>, d: Delta)
    requires IsRedelivery(sent, delivered) && d in delivered
    ensures d in sent
    decreases |delivered|
  {
    var before, last := delivered[..|delivered| - 1], delivered[|delivered| - 1];
    assert d == last || d in before;
    if sent != [] && sent[|sent| - 1] == last && IsRedelivery(sent[..|sent| - 1], before) {
      if d != last {
        RedeliveredWasSent(sent[..|sent| - 1], before, d);
      }
    } else {
      RedeliveredWasSent(sent, before, d);
    }
  }

  lemma {:induction false} SentIsRedelivery(sent: seq<Delta>)
    ensures IsRedelivery(sent, sent)
  {
    if sent != [] {
      SentIsRedelivery(sent[..|sent| - 1]);
    }
  }

  lemma RepeatedAtTheEnd(s: BookState, sent: seq<Delta>, d: Delta)
    requires d in sent
    ensures IsRedelivery(sent, sent + [d]) && RunDeltas(s, sent + [d]) == DeltaStep(RunDeltas(s, sent), d)
  {
    SentIsRedelivery(sent);
    assert (sent + [d])[..|sent|] == sent;
  }

  ghost predicate AnyRedeliveryIsHarmless(s: BookState, sent: seq<Delta>) {
    forall delivered :: IsRedelivery(sent, delivered) ==> RunDeltas(s, delivered) == RunDeltas(s, sent)
  }

  /** Id 0 escapes the filter. From any state, every redelivery of a stream is
      harmless exactly when no delta of the stream has id 0. (A stream of
      zero-id deltas alone has nothing the filter could stop.) */
  lemma RedeliveryHarmlessIff(s: BookState, sent: seq<Delta>)
    requires exists i :: 0 <= i < |sent| && sent[i].id != 0
    ensures AnyRedeliveryIsHarmless(s, sent) <==> NoZeroId(sent)
  {
    if NoZeroId(sent) {
      forall delivered: seq<Delta> | IsRedelivery(sent, delivered)
        ensures RunDeltas(s, delivered) == RunDeltas(s, sent)
      {
        forall i | 0 <= i < |delivered| ensures delivered[i].id != 0 {
          RedeliveredWasSent(sent, delivered, delivered[i]);
        }
        RedeliveryIsHarmless(s, sent, delivered);
      }
    } else {
      var zero :| 0 <= zero < |sent| && sent[zero].id == 0;
      var other :| 0 <= other < |sent| && sent[other].id != 0;
      var end := RunDeltas(s, sent);
      var again := if end.lastId == 0 then sent[other] else sent[zero];
      RepeatedAtTheEnd(s, sent, again);
      assert DeltaStep(end, again).lastId == again.id != end.lastId;
    }
  }

  /** Not only the id is at stake: here an order removed by a zero-id delta comes back. */
  lemma RedeliveryCanRestoreRemovedLevel()
    ensures exists sent: seq<Delta>, delivered: seq<Delta> ::
      && IsRedelivery(sent, delivered)
      && RunDeltas(EMPTY_BOOK, sent).bids == [] && RunDeltas(EMPTY_BOOK, delivered).bids != []
  {
    var add := Delta([PriceLevel(100.0, 1.0)], [], 5);
    var remove := Delta([PriceLevel(100.0, 0.0)], [], 0);
    var sent, delivered := [add, remove], [add, remove, add];
    assert delivered[..2] == sent && sent[..1] == [add] && [add][..0] == [];
    assert IsRedelivery([], []);
    assert IsRedelivery([add], [add]);
    assert IsRedelivery(sent, sent);
    assert IsRedelivery(sent, delivered);
    var none := [];
    assert ApplyAll(true, none, [PriceLevel(100.0, 1.0)]) == ApplyAll(true, [PriceLevel(100.0, 1.0)], []);
    assert RunDeltas(EMPTY_BOOK, []) == EMPTY_BOOK;
    assert RunDeltas(EMPTY_BOOK, [add]) == BookState([PriceLevel(100.0, 1.0)], [], 5);
    var one := [PriceLevel(100.0, 1.0)];
    assert LowerBound(true, one, 100.0) == 0;
    assert Apply(true, one, PriceLevel(100.0, 0.0)) == [];
    assert ApplyAll(true, one, [PriceLevel(100.0, 0.0)]) == ApplyAll(true, [], []);
    assert RunDeltas(EMPTY_BOOK, sent) == BookState([], [], 0);
    assert RunDeltas(EMPTY_BOOK, delivered).bids == one;
  }

  // ----- the book as a pair of maps -----

  ghost function AllBidUpdates(ds: seq<Delta>): seq<PriceLevel>
    decreases |ds|
  {
    if ds == [] then [] else AllBidUpdates(ds[..|ds| - 1]) + ds[|ds| - 1].bidUpdates
  }

  ghost function AllAskUpdates(ds: seq<Delta>): seq<PriceLevel>
    decreases |ds|
  {
    if ds == [] then [] else AllAskUpdates(ds[..|ds| - 1]) + ds[|ds| - 1].askUpdates
  }

  /** The deltas that got past the staleness test. */
  ghost function AcceptedDeltas(s: BookState, ds: seq<Delta>): seq<Delta>
    decreases |ds|
  {
    if ds == [] then []
    else
      var (before, d) := (ds[..|ds| - 1], ds[|ds| - 1]);
      AcceptedDeltas(s, before) + if Stale(RunDeltas(s, before), d) then [] else [d]
  }

  /** Which delta is accepted next: one with id 0 or an id above the last accepted one. */
  lemma {:induction false} AcceptedNextIff(s: BookState, ds: seq<Delta>, d: Delta)
    ensures var ids, kept := AcceptedIds(s, ds), AcceptedDeltas(s, ds);
      var last := if ids == [] then s.lastId else ids[|ids| - 1];
      && RunDeltas(s, ds).lastId == last
      && (AcceptedIds(s, ds + [d]) == if d.id == 0 || last < d.id then ids + [d.id] else ids)
      && (AcceptedDeltas(s, ds + [d]) == if d.id == 0 || last < d.id then kept + [d] else kept)
    decreases |ds|
  {
    hide ApplyAll;
    assert (ds + [d])[..|ds|] == ds;
    if ds != [] {
      AcceptedNextIff(s, ds[..|ds| - 1], ds[|ds| - 1]);
      assert ds[..|ds| - 1] + [ds[|ds| - 1]] == ds;
    }
  }

  ghost predicate Tracks(side: seq<PriceLevel>, descending: bool, m: map<real, real>, prices: set<real>) {
    StrictlySorted(descending, side) && PricesIn(side, prices) && ToMap(side) == m
  }

  ghost predicate DeltasIn(ds: seq<Delta>, prices: set<real>) {
    forall i :: 0 <= i < |ds| ==> PricesIn(ds[i].bidUpdates, prices) && PricesIn(ds[i].askUpdates, prices)
  }

  lemma {:induction false} MapFoldConcat(m: map<real, real>, a: seq<PriceLevel>, b: seq<PriceLevel>)
    ensures MapFold(m, a + b) == MapFold(MapFold(m, a), b)
    decreases |a|
  {
    if a == [] {
      assert a + b == b;
    } else {
      assert (a + b)[1..] == a[1..] + b;
      MapFoldConcat(MapUpdate(m, a[0]), a[1..], b);
    }
  }

  /** What the stream leaves on each side is the fold of the accepted updates
      over the map the side stood for. */
  lemma {:induction false} DeltasFoldOverMaps(s: BookState, ds: seq<Delta>, prices: set<real>)
    requires Spaced(prices) && DeltasIn(ds, prices)
    requires Tracks(s.bids, true, ToMap(s.bids), prices) && Tracks(s.asks, false, ToMap(s.asks), prices)
    ensures var r, kept := RunDeltas(s, ds), AcceptedDeltas(s, ds);
      && Tracks(r.bids, true, MapFold(ToMap(s.bids), AllBidUpdates(kept)), prices)
      && Tracks(r.asks, false, MapFold(ToMap(s.asks), AllAskUpdates(kept)), prices)
    decreases |ds|
  {
    hide ToMap, MapFold, ApplyAll, StrictlySorted, Spaced;
    if ds == [] {
      EmptyFold(ToMap(s.bids));
      EmptyFold(ToMap(s.asks));
    } else {
      var before, d := ds[..|ds| - 1], ds[|ds| - 1];
      assert DeltasIn(before, prices);
      DeltasFoldOverMaps(s, before, prices);
      var mid, kept := RunDeltas(s, before), AcceptedDeltas(s, before);
      if Stale(mid, d) {
        assert AcceptedDeltas(s, ds) == kept;
      } else {
        ApplyAllRefines(true, mid.bids, d.bidUpdates, prices);
        ApplyAllRefines(false, mid.asks, d.askUpdates, prices);
        MapFoldConcat(ToMap(s.bids), AllBidUpdates(kept), d.bidUpdates);
        MapFoldConcat(ToMap(s.asks), AllAskUpdates(kept), d.askUpdates);
        var all := kept + [d];
        assert all[..|all| - 1] == kept && all[|all| - 1] == d;
        assert AcceptedDeltas(s, ds) == all;
        assert RunDeltas(s, ds) == DeltaStep(mid, d);
        assert AllBidUpdates(all) == AllBidUpdates(kept) + d.bidUpdates;
        assert AllAskUpdates(all) == AllAskUpdates(kept) + d.askUpdates;
      }
    }
  }

  lemma EmptyFold(m: map<real, real>)
    ensures MapFold(m, []) == m
  {
  }

  /** A snapshot side without duplicate prices stands for the fold of its own
      entries over the empty map. */
  lemma SnapshotFolds(descending: bool, v: seq<PriceLevel>, levels: seq<PriceLevel>)
    requires IsSnapshotOf(descending, v, levels) && DistinctPrices(levels)
    ensures StrictlySorted(descending, v) && ToMap(v) == MapFold(map[], levels)
  {
    SnapshotIsGood(descending, v, levels);
    KeepPositiveDistinct(levels);
    SortedDistinctIsStrict(descending, v, KeepPositive(levels));
    StrictIsDistinct(descending, v);
    var m := MapFold(map[], levels);
    forall p | p in m ensures HasPrice(v, p) {
      FoldEntries(map[], levels, p);
      var i :| 0 <= i < |levels| && levels[i].price == p && levels[i].quantity > 0.0;
      assert levels[i] in v;
    }
    forall i | 0 <= i < |v| ensures v[i].price in m && m[v[i].price] == v[i].quantity {
      assert v[i] in levels && v[i].quantity > 0.0;
      var k :| 0 <= k < |levels| && levels[k] == v[i];
      FoldHit(map[], levels, k);
    }
    MapByEntries(v, m);
  }

  lemma {:induction false} KeepPositiveDistinct(levels: seq<PriceLevel>)
    requires DistinctPrices(levels)
    ensures DistinctPrices(KeepPositive(levels))
  {
    if levels != [] {
      KeepPositiveDistinct(levels[1..]);
      KeepPositiveAll(levels[1..]);
      var rest := KeepPositive(levels[1..]);
      forall i | 0 <= i < |rest| ensures rest[i].price != levels[0].price {
        assert rest[i] in levels[1..];
      }
    }
  }

  lemma SortedDistinctIsStrict(descending: bool, v: seq<PriceLevel>, w: seq<PriceLevel>)
    requires Sorted(descending, v) && multiset(v) == multiset(w) && DistinctPrices(w)
    ensures StrictlySorted(descending, v)
  {
    SamePermutationMembers(v, w);
    forall i, j | 0 <= i < j < |v| ensures Before(descending, v[i].price, v[j].price) {
      if v[i].price == v[j].price {
        assert v[i] in w && v[j] in w;
        assert v[i] == v[j];
        TwiceInMultiset(v, i, j);
        OnceInMultiset(w, v[i]);
      }
    }
  }

  lemma TwiceInMultiset(v: seq<PriceLevel>, i: nat, j: nat)
    requires i < j < |v| && v[i] == v[j]
    ensures multiset(v)[v[i]] >= 2
  {
    assert v == v[..j] + [v[j]] + v[j + 1..];
    assert v[i] in v[..j];
    assert multiset(v[..j])[v[i]] >= 1;
  }

  lemma {:induction false} OnceInMultiset(w: seq<PriceLevel>, l: PriceLevel)
    requires DistinctPrices(w)
    ensures multiset(w)[l] <= 1
  {
    if w != [] {
      assert w == [w[0]] + w[1..];
      OnceInMultiset(w[1..], l);
      if l == w[0] {
        assert l !in w[1..];
        assert l !in multiset(w[1..]);
      }
    }
  }

  lemma {:induction false} FoldEntries(m: map<real, real>, levels: seq<PriceLevel>, p: real)
    requires p in MapFold(m, levels)
    ensures p in m || exists i :: 0 <= i < |levels| && levels[i].price == p && levels[i].quantity > 0.0
    decreases |levels|
  {
    if levels != [] {
      FoldEntries(MapUpdate(m, levels[0]), levels[1..], p);
      if exists i :: 0 <= i < |levels[1..]| && levels[1..][i].price == p && levels[1..][i].quantity > 0.0 {
        var i :| 0 <= i < |levels[1..]| && levels[1..][i].price == p && levels[1..][i].quantity > 0.0;
        assert levels[i + 1].price == p;
      }
    }
  }

  lemma {:induction false} FoldHit(m: map<real, real>, levels: seq<PriceLevel>, k: nat)
    requires DistinctPrices(levels) && k < |levels| && levels[k].quantity > 0.0
    ensures levels[k].price in MapFold(m, levels) && MapFold(m, levels)[levels[k].price] == levels[k].quantity
    decreases |levels|
  {
    var m' := MapUpdate(m, levels[0]);
    if k == 0 {
      FoldMisses(m', levels[1..], levels[0].price);
    } else {
      FoldHit(m', levels[1..], k - 1);
    }
  }

  lemma {:induction false} FoldMisses(m: map<real, real>, levels: seq<PriceLevel>, p: real)
    requires p in m && forall i :: 0 <= i < |levels| ==> levels[i].price != p
    ensures p in MapFold(m, levels) && MapFold(m, levels)[p] == m[p]
    decreases |levels|
  {
    if levels != [] {
      FoldMisses(MapUpdate(m, levels[0]), levels[1..], p);
    }
  }

  /** One snapshot without duplicate prices and then any deltas, all over
      tick-separated prices: each side is the price-ordered list of the map
      that the same updates build. */
  lemma BookRefinesMaps(bids: seq<PriceLevel>, asks: seq<PriceLevel>, id: nat, s: BookState, ds: seq<Delta>,
                        prices: set<real>)
    requires SnapshotStep(bids, asks, id, s)
    requires DistinctPrices(bids) && DistinctPrices(asks)
    requires Spaced(prices) && PricesIn(bids, prices) && PricesIn(asks, prices) && DeltasIn(ds, prices)
    ensures var r, kept := RunDeltas(s, ds), AcceptedDeltas(s, ds);
      && StrictlySorted(true, r.bids) && ToMap(r.bids) == MapFold(map[], bids + AllBidUpdates(kept))
      && StrictlySorted(false, r.asks) && ToMap(r.asks) == MapFold(map[], asks + AllAskUpdates(kept))
  {
    var kept := AcceptedDeltas(s, ds);
    SnapshotFolds(true, s.bids, bids);
    SnapshotFolds(false, s.asks, asks);
    SnapshotIsGood(true, s.bids, bids);
    SnapshotIsGood(false, s.asks, asks);
    forall i | 0 <= i < |s.bids| ensures s.bids[i].price in prices { assert s.bids[i] in bids; }
    forall i | 0 <= i < |s.asks| ensures s.asks[i].price in prices { assert s.asks[i] in asks; }
    DeltasFoldOverMaps(s, ds, prices);
    MapFoldConcat(map[], bids, AllBidUpdates(kept));
    MapFoldConcat(map[], asks, AllAskUpdates(kept));
  }
}
