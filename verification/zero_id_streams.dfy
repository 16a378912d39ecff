/** When redelivery is harmless, zero-id deltas included (src/orderbook/order_book.cpp). */
module ZeroIdStreams {
  import opened Types
  import opened PriceLevels
  import opened BookRuns

  ghost predicate AllZeroId(ds: seq<Delta>) {
    forall i :: 0 <= i < |ds| ==> ds[i].id == 0
  }

  function UpdatesOf(d: Delta, bid: bool): seq<PriceLevel> {
    if bid then d.bidUpdates else d.askUpdates
  }

  ghost function AllUpdatesOf(ds: seq<Delta>, bid: bool): seq<PriceLevel> {
    if bid then AllBidUpdates(ds) else AllAskUpdates(ds)
  }

  // ----- one price of a fold -----

  ghost predicate Touches(updates: seq<PriceLevel>, price: real) {
    exists i :: 0 <= i < |updates| && updates[i].price == price
  }

  ghost function At(m: map<real, real>, price: real): Option<real> {
    if price in m then Some(m[price]) else None
  }

  lemma TouchesFirst(updates: seq<PriceLevel>, price: real)
    requires updates != []
    ensures Touches(updates, price) <==> updates[0].price == price || Touches(updates[1..], price)
  {
    if Touches(updates, price) {
      var i :| 0 <= i < |updates| && updates[i].price == price;
      assert i > 0 ==> updates[1..][i - 1].price == price;
    }
    if Touches(updates[1..], price) {
      var i :| 0 <= i < |updates[1..]| && updates[1..][i].price == price;
      assert updates[i + 1].price == price;
    }
  }

  lemma TouchesConcat(a: seq<PriceLevel>, b: seq<PriceLevel>, price: real)
    ensures Touches(a + b, price) <==> Touches(a, price) || Touches(b, price)
  {
    if Touches(a, price) {
      var i :| 0 <= i < |a| && a[i].price == price;
      assert (a + b)[i].price == price;
    }
    if Touches(b, price) {
      var i :| 0 <= i < |b| && b[i].price == price;
      assert (a + b)[|a| + i].price == price;
    }
  }

  /** A touched price ends the same wherever the fold began; an untouched one stays. */
  lemma {:induction false} FoldAt(m: map<real, real>, n: map<real, real>, updates: seq<PriceLevel>, price: real)
    ensures At(MapFold(m, updates), price)
         == if Touches(updates, price) then At(MapFold(n, updates), price) else At(m, price)
    decreases |updates|
  {
    hide Touches;
    if updates == [] {
      NothingTouched(price);
    } else {
      TouchesFirst(updates, price);
      var l := updates[0];
      FoldAt(MapUpdate(m, l), MapUpdate(n, l), updates[1..], price);
      FoldAt(MapUpdate(n, l), MapUpdate(n, l), updates[1..], price);
    }
  }

  lemma NothingTouched(price: real)
    ensures !Touches([], price)
  {
  }

  // ----- a stream whose deltas all agree with its end -----

  /** Applied once more to these maps, the delta changes nothing. */
  ghost predicate IdleOn(f: map<real, real>, d: Delta, bid: bool) {
    MapFold(f, UpdatesOf(d, bid)) == f
  }

  lemma StreamStep(ds: seq<Delta>, bid: bool)
    requires ds != []
    ensures AllUpdatesOf(ds, bid) == AllUpdatesOf(ds[..|ds| - 1], bid) + UpdatesOf(ds[|ds| - 1], bid)
  {
  }

  lemma {:induction false} IdleStreamAt(m: map<real, real>, f: map<real, real>, ds: seq<Delta>, bid: bool, price: real)
    requires forall i :: 0 <= i < |ds| ==> IdleOn(f, ds[i], bid)
    ensures At(MapFold(m, AllUpdatesOf(ds, bid)), price)
         == if Touches(AllUpdatesOf(ds, bid), price) then At(f, price) else At(m, price)
    decreases |ds|
  {
    hide MapFold, Touches, At;
    if ds == [] {
      EmptyFold(m);
      NothingTouched(price);
    } else {
      var before, d := ds[..|ds| - 1], ds[|ds| - 1];
      assert IdleOn(f, d, bid);
      IdleStreamAt(m, f, before, bid, price);
      StreamStep(ds, bid);
      var a, u := AllUpdatesOf(before, bid), UpdatesOf(d, bid);
      hide AllUpdatesOf, UpdatesOf;
      MapFoldConcat(m, a, u);
      TouchesConcat(a, u, price);
      FoldAt(MapFold(m, a), f, u, price);
    }
  }

  lemma {:induction false} StreamTouches(ds: seq<Delta>, bid: bool, price: real)
    ensures Touches(AllUpdatesOf(ds, bid), price) <==> exists d :: d in ds && Touches(UpdatesOf(d, bid), price)
    decreases |ds|
  {
    hide Touches;
    if ds == [] {
      NothingTouched(price);
    } else {
      var before, last := ds[..|ds| - 1], ds[|ds| - 1];
      StreamTouches(before, bid, price);
      StreamStep(ds, bid);
      TouchesConcat(AllUpdatesOf(before, bid), UpdatesOf(last, bid), price);
      assert forall d :: d in ds <==> d in before || d == last;
    }
  }

  lemma {:induction false} SentWasDelivered(sent: seq<Delta>, delivered: seq<Delta>, d: Delta)
    requires IsRedelivery(sent, delivered) && d in sent
    ensures d in delivered
    decreases |delivered|
  {
    var before, last := delivered[..|delivered| - 1], delivered[|delivered| - 1];
    if sent != [] && sent[|sent| - 1] == last && IsRedelivery(sent[..|sent| - 1], before) {
      if d in sent[..|sent| - 1] {
        SentWasDelivered(sent[..|sent| - 1], before, d);
      }
    } else {
      SentWasDelivered(sent, before, d);
    }
  }

  lemma SameMap(m: map<real, real>, n: map<real, real>)
    requires forall p :: At(m, p) == At(n, p)
    ensures m == n
  {
    forall p ensures p in m <==> p in n {
      assert At(m, p) == At(n, p);
    }
    forall p | p in m ensures m[p] == n[p] {
      assert At(m, p) == At(n, p);
    }
  }

  /** Redelivery then leaves the same map. */
  lemma IdleRedelivery(m: map<real, real>, sent: seq<Delta>, delivered: seq<Delta>, bid: bool)
    requires IsRedelivery(sent, delivered)
    requires forall i :: 0 <= i < |sent| ==> IdleOn(MapFold(m, AllUpdatesOf(sent, bid)), sent[i], bid)
    ensures MapFold(m, AllUpdatesOf(delivered, bid)) == MapFold(m, AllUpdatesOf(sent, bid))
  {
    hide MapFold, AllUpdatesOf, Touches, At, IsRedelivery;
    var f := MapFold(m, AllUpdatesOf(sent, bid));
    forall d ensures d in sent <==> d in delivered {
      if d in sent {
        SentWasDelivered(sent, delivered, d);
      }
      if d in delivered {
        RedeliveredWasSent(sent, delivered, d);
      }
    }
    forall i | 0 <= i < |delivered| ensures IdleOn(f, delivered[i], bid) {
      assert delivered[i] in sent;
    }
    forall p ensures At(MapFold(m, AllUpdatesOf(delivered, bid)), p) == At(f, p) {
      IdleStreamAt(m, f, delivered, bid, p);
      IdleStreamAt(m, f, sent, bid, p);
      StreamTouches(sent, bid, p);
      StreamTouches(delivered, bid, p);
    }
    SameMap(MapFold(m, AllUpdatesOf(delivered, bid)), f);
  }

  // ----- streams of zero-id deltas on a book -----

  ghost predicate TickSpaced(s: BookState, prices: set<real>) {
    Spaced(prices) && Tracks(s.bids, true, ToMap(s.bids), prices) && Tracks(s.asks, false, ToMap(s.asks), prices)
  }

  lemma {:induction false} ZeroIdsAreAccepted(s: BookState, ds: seq<Delta>)
    requires AllZeroId(ds)
    ensures AcceptedDeltas(s, ds) == ds
    ensures ds != [] ==> RunDeltas(s, ds).lastId == 0
    decreases |ds|
  {
    if ds != [] {
      ZeroIdsAreAccepted(s, ds[..|ds| - 1]);
    }
  }

  /** Applied once more to the final book, the delta changes neither map. */
  ghost predicate Idle(end: BookState, d: Delta) {
    IdleOn(ToMap(end.bids), d, true) && IdleOn(ToMap(end.asks), d, false)
  }

  lemma RedeliveryIsIn(sent: seq<Delta>, delivered: seq<Delta>, prices: set<real>)
    requires IsRedelivery(sent, delivered)
    ensures DeltasIn(sent, prices) ==> DeltasIn(delivered, prices)
    ensures AllZeroId(sent) ==> AllZeroId(delivered)
    ensures NoZeroId(sent) ==> NoZeroId(delivered)
  {
    hide IsRedelivery, PricesIn;
    forall i | 0 <= i < |delivered| ensures delivered[i] in sent {
      RedeliveredWasSent(sent, delivered, delivered[i]);
    }
  }

  lemma IdleStreamIsHarmless(s: BookState, sent: seq<Delta>, delivered: seq<Delta>, prices: set<real>)
    requires TickSpaced(s, prices) && DeltasIn(sent, prices) && AllZeroId(sent) && sent != []
    requires forall i :: 0 <= i < |sent| ==> Idle(RunDeltas(s, sent), sent[i])
    requires IsRedelivery(sent, delivered)
    ensures RunDeltas(s, delivered) == RunDeltas(s, sent)
  {
    RedeliveryIsIn(sent, delivered, prices);
    ZeroIdsAreAccepted(s, sent);
    ZeroIdsAreAccepted(s, delivered);
    assert delivered != [];
    hide IsRedelivery, RunDeltas, AcceptedDeltas, ToMap, MapFold, Spaced, StrictlySorted, PricesIn, DeltasIn;
    DeltasFoldOverMaps(s, sent, prices);
    DeltasFoldOverMaps(s, delivered, prices);
    var end, end' := RunDeltas(s, sent), RunDeltas(s, delivered);
    forall i | 0 <= i < |sent|
      ensures IdleOn(ToMap(end.bids), sent[i], true) && IdleOn(ToMap(end.asks), sent[i], false)
    {
      assert Idle(end, sent[i]);
    }
    hide IdleOn, Idle;
    IdleRedelivery(ToMap(s.bids), sent, delivered, true);
    IdleRedelivery(ToMap(s.asks), sent, delivered, false);
    SortedListIsUnique(true, end'.bids, end.bids);
    SortedListIsUnique(false, end'.asks, end.asks);
  }

  lemma HarmlessIsIdle(s: BookState, sent: seq<Delta>, d: Delta, prices: set<real>)
    requires TickSpaced(s, prices) && DeltasIn(sent, prices) && AllZeroId(sent) && d in sent
    requires AnyRedeliveryIsHarmless(s, sent)
    ensures Idle(RunDeltas(s, sent), d)
  {
    var end := RunDeltas(s, sent);
    RepeatedAtTheEnd(s, sent, d);
    assert DeltaStep(end, d) == end;
    assert PricesIn(d.bidUpdates, prices) && PricesIn(d.askUpdates, prices);
    hide RunDeltas, AcceptedDeltas, ToMap, MapFold, Spaced, StrictlySorted, PricesIn, ApplyAll;
    DeltasFoldOverMaps(s, sent, prices);
    ApplyAllRefines(true, end.bids, d.bidUpdates, prices);
    ApplyAllRefines(false, end.asks, d.askUpdates, prices);
  }

  /** On tick-separated prices every redelivery of a stream is harmless exactly
      when none of its deltas has id 0, or all have and none of them, applied
      once more at the end, would change the book. */
  lemma RedeliveryHarmlessExactly(s: BookState, sent: seq<Delta>, prices: set<real>)
    requires TickSpaced(s, prices) && DeltasIn(sent, prices)
    ensures AnyRedeliveryIsHarmless(s, sent)
      <==> NoZeroId(sent) || (AllZeroId(sent) && forall d :: d in sent ==> Idle(RunDeltas(s, sent), d))
  {
    hide RunDeltas, Idle, TickSpaced, DeltasIn, IsRedelivery;
    if exists i :: 0 <= i < |sent| && sent[i].id != 0 {
      RedeliveryHarmlessIff(s, sent);
    } else if sent == [] {
      forall delivered: seq<Delta> | IsRedelivery(sent, delivered)
        ensures RunDeltas(s, delivered) == RunDeltas(s, sent)
      {
        RedeliveryIsIn(sent, delivered, prices);
        RedeliveryIsHarmless(s, sent, delivered);
      }
    } else if AnyRedeliveryIsHarmless(s, sent) {
      forall d | d in sent ensures Idle(RunDeltas(s, sent), d) {
        HarmlessIsIdle(s, sent, d, prices);
      }
    } else if forall d :: d in sent ==> Idle(RunDeltas(s, sent), d) {
      forall delivered: seq<Delta> | IsRedelivery(sent, delivered)
        ensures RunDeltas(s, delivered) == RunDeltas(s, sent)
      {
        IdleStreamIsHarmless(s, sent, delivered, prices);
      }
    }
  }
}
