/** The order book object (src/orderbook/order_book.cpp) as its one writer and a
    reader outside any write see it. Interleaved readers are in Seqlock. */
module OrderBooks {
  import opened Types
  import opened DepthWalk
  import opened PriceLevels
  import opened BookRuns

  const TOP_LEVELS: nat := 20

  class OrderBook {
    const exchange: Exchange
    const pair: string
    var bids: seq<PriceLevel>
    var asks: seq<PriceLevel>
    const topBids: array<PriceLevel>
    const topAsks: array<PriceLevel>
    var numTopBids: nat
    var numTopAsks: nat
    var seqlock: nat
    var lastSequenceId: nat
    var lastUpdateTime: int

    /** The top arrays hold the first min(20, n) levels of each side. */
    ghost predicate Cached()
      reads this, topBids, topAsks
    {
      && topBids.Length == TOP_LEVELS && topAsks.Length == TOP_LEVELS
      && numTopBids == MinNat(TOP_LEVELS, |bids|) && topBids[..numTopBids] == bids[..numTopBids]
      && numTopAsks == MinNat(TOP_LEVELS, |asks|) && topAsks[..numTopAsks] == asks[..numTopAsks]
    }

    ghost predicate Valid()
      reads this, topBids, topAsks
    {
      Cached() && GoodBook(State()) && seqlock % 2 == 0 && topBids != topAsks
    }

    ghost function State(): BookState
      reads this
    {
      BookState(bids, asks, lastSequenceId)
    }

    constructor (exchange: Exchange, pair: string, now: int)
      ensures Valid() && State() == EMPTY_BOOK && seqlock == 0 && lastUpdateTime == now
      ensures this.exchange == exchange && this.pair == pair
      ensures fresh(topBids) && fresh(topAsks)
    {
      this.exchange, this.pair := exchange, pair;
      bids, asks := [], [];
      topBids := new PriceLevel[TOP_LEVELS](_ => PriceLevel(0.0, 0.0));
      topAsks := new PriceLevel[TOP_LEVELS](_ => PriceLevel(0.0, 0.0));
      numTopBids, numTopAsks := 0, 0;
      seqlock, lastSequenceId, lastUpdateTime := 0, 0, now;
    }

    method SyncTopLevels()
      requires topBids.Length == TOP_LEVELS && topAsks.Length == TOP_LEVELS && topBids != topAsks
      modifies this`numTopBids, this`numTopAsks, topBids, topAsks
      ensures Cached()
    {
      numTopBids := MinNat(TOP_LEVELS, |bids|);
      for i := 0 to numTopBids
        modifies topBids
        invariant topBids[..i] == bids[..i]
      {
        topBids[i] := bids[i];
      }
      numTopAsks := MinNat(TOP_LEVELS, |asks|);
      for i := 0 to numTopAsks
        modifies topAsks
        invariant topAsks[..i] == asks[..i]
      {
        topAsks[i] := asks[i];
      }
    }

    method ApplySnapshot(newBids: seq<PriceLevel>, newAsks: seq<PriceLevel>, sequenceId: nat, now: int)
      requires Valid()
      modifies this, topBids, topAsks
      ensures Valid()
      ensures SnapshotStep(newBids, newAsks, sequenceId, State())
      ensures seqlock == old(seqlock) + 2 && lastUpdateTime == now
    {
      hide GoodSide, IsSnapshotOf;
      bids := SnapshotSide(true, newBids);
      asks := SnapshotSide(false, newAsks);
      lastSequenceId := sequenceId;
      seqlock := seqlock + 1;
      lastUpdateTime := now;
      SyncTopLevels();
      seqlock := seqlock + 1;
    }

    /** A stale delta changes nothing at all, not even the counter or the clock. */
    method ApplyDelta(d: Delta, now: int)
      requires Valid()
      modifies this, topBids, topAsks
      ensures Valid()
      ensures State() == DeltaStep(old(State()), d)
      ensures Stale(old(State()), d) ==>
        && seqlock == old(seqlock) && lastUpdateTime == old(lastUpdateTime)
        && numTopBids == old(numTopBids) && numTopAsks == old(numTopAsks)
        && topBids[..] == old(topBids[..]) && topAsks[..] == old(topAsks[..])
      ensures !Stale(old(State()), d) ==> seqlock == old(seqlock) + 2 && lastUpdateTime == now
    {
      hide GoodSide, ApplyAll;
      if d.id != 0 && d.id <= lastSequenceId {
        return;
      }
      StepKeepsGood(State(), Update(d), DeltaStep(State(), d));
      bids := UpdateAll(true, bids, d.bidUpdates);
      asks := UpdateAll(false, asks, d.askUpdates);
      lastSequenceId := d.id;
      seqlock := seqlock + 1;
      lastUpdateTime := now;
      SyncTopLevels();
      seqlock := seqlock + 1;
    }

    /** Outside a write the best bid is the highest stored bid price. */
    method BestBid() returns (result: Option<real>)
      requires Valid()
      ensures result.None? <==> bids == []
      ensures result.Some? ==> exists i :: 0 <= i < |bids| && bids[i].price == result.value
      ensures result.Some? ==> forall i :: 0 <= i < |bids| ==> bids[i].price <= result.value
    {
      result := None;
      var done := false;
      while !done
        invariant done ==> result == if |bids| > 0 then Some(bids[0].price) else None
        decreases !done
      {
        var seen := seqlock;
        if seen % 2 == 0 {
          if numTopBids > 0 {
            assert topBids[..numTopBids][0] == bids[..numTopBids][0];
            result := Some(topBids[0].price);
          } else {
            result := None;
          }
        }
        done := seqlock == seen;
      }
    }

    /** Outside a write the best ask is the lowest stored ask price. */
    method BestAsk() returns (result: Option<real>)
      requires Valid()
      ensures result.None? <==> asks == []
      ensures result.Some? ==> exists i :: 0 <= i < |asks| && asks[i].price == result.value
      ensures result.Some? ==> forall i :: 0 <= i < |asks| ==> result.value <= asks[i].price
    {
      result := None;
      var done := false;
      while !done
        invariant done ==> result == if |asks| > 0 then Some(asks[0].price) else None
        decreases !done
      {
        var seen := seqlock;
        if seen % 2 == 0 {
          if numTopAsks > 0 {
            assert topAsks[..numTopAsks][0] == asks[..numTopAsks][0];
            result := Some(topAsks[0].price);
          } else {
            result := None;
          }
        }
        done := seqlock == seen;
      }
    }

    /** Outside a write a snapshot is the best levels of both sides, as many as
        asked for, cached and stored. */
    method TakeSnapshot(depth: nat) returns (snap: OrderBookSnapshot)
      requires Valid()
      ensures snap.exchange == exchange && snap.pair == pair
      ensures snap.bids == bids[..MinNat(MinNat(depth, 20), |bids|)]
      ensures snap.asks == asks[..MinNat(MinNat(depth, 20), |asks|)]
      ensures snap.sequenceId == lastSequenceId && snap.localTimestamp == lastUpdateTime
      ensures GoodSide(true, snap.bids) && GoodSide(false, snap.asks)
    {
      var d := MinNat(depth, TOP_LEVELS);
      var nb := MinNat(d, numTopBids);
      var na := MinNat(d, numTopAsks);
      assert topBids[..nb] == topBids[..numTopBids][..nb];
      assert topAsks[..na] == topAsks[..numTopAsks][..na];
      snap := OrderBookSnapshot(exchange, pair, topBids[..nb], topAsks[..na], lastSequenceId, lastUpdateTime);
    }
  }
}
