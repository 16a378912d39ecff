/** The replay position of one pair (src/backtest/simulated_exchange.cpp). */
module Cursors {
  import opened Types

  ghost predicate InTimeOrder(snaps: seq<HistoricalSnapshot>) {
    forall i, j :: 0 <= i < j < |snaps| ==> snaps[i].timestampMs <= snaps[j].timestampMs
  }

  /** How many snapshots are no later than t. */
  ghost function CountUpTo(snaps: seq<HistoricalSnapshot>, t: nat): (n: nat)
    ensures n <= |snaps|
  {
    if snaps == [] then 0
    else CountUpTo(snaps[..|snaps| - 1], t) + if snaps[|snaps| - 1].timestampMs <= t then 1 else 0
  }

  /** From scratch: the last snapshot no later than t, or the first if there is none. */
  ghost function Seek(snaps: seq<HistoricalSnapshot>, t: nat): nat {
    if CountUpTo(snaps, t) == 0 then 0 else CountUpTo(snaps, t) - 1
  }

  lemma {:induction false} CountSplits(snaps: seq<HistoricalSnapshot>, t: nat)
    requires InTimeOrder(snaps)
    ensures var n := CountUpTo(snaps, t);
      && (forall i :: 0 <= i < n ==> snaps[i].timestampMs <= t)
      && (forall i :: n <= i < |snaps| ==> snaps[i].timestampMs > t)
      && (n < |snaps| ==> snaps[n].timestampMs > t)
  {
    if snaps != [] {
      CountSplits(snaps[..|snaps| - 1], t);
    }
  }

  function MaxNat(a: nat, b: nat): nat {
    if a < b then b else a
  }

  /** The while loop of advance_to: it only moves forward, to the later of
      where it was and where a search from scratch would be. */
  method AdvanceCursor(snaps: seq<HistoricalSnapshot>, start: nat, t: nat) returns (idx: nat)
    requires InTimeOrder(snaps) && start < |snaps|
    ensures idx == MaxNat(start, Seek(snaps, t)) < |snaps|
  {
    CountSplits(snaps, t);
    idx := start;
    while idx + 1 < |snaps| && snaps[idx + 1].timestampMs <= t
      invariant start <= idx < |snaps|
      invariant start < idx ==> snaps[idx].timestampMs <= t
    {
      idx := idx + 1;
    }
  }

  lemma SeekMonotone(snaps: seq<HistoricalSnapshot>, t: nat, u: nat)
    requires InTimeOrder(snaps) && t <= u
    ensures Seek(snaps, t) <= Seek(snaps, u)
  {
    CountSplits(snaps, t);
    CountSplits(snaps, u);
  }

  /** The position after advancing through the times, from position 0. */
  ghost function CursorAfter(snaps: seq<HistoricalSnapshot>, times: seq<nat>): nat {
    if times == [] then 0
    else MaxNat(CursorAfter(snaps, times[..|times| - 1]), Seek(snaps, times[|times| - 1]))
  }

  /** Through any non-decreasing times the cursor is where a search from scratch would be. */
  lemma {:induction false} CursorIsSeek(snaps: seq<HistoricalSnapshot>, times: seq<nat>)
    requires InTimeOrder(snaps) && times != []
    requires forall i, j :: 0 <= i < j < |times| ==> times[i] <= times[j]
    ensures CursorAfter(snaps, times) == Seek(snaps, times[|times| - 1])
  {
    var before := times[..|times| - 1];
    if before != [] {
      CursorIsSeek(snaps, before);
      SeekMonotone(snaps, before[|before| - 1], times[|times| - 1]);
    }
  }

  /** The book at the cursor is never later than t exactly when the pair's
      first snapshot has been reached. */
  lemma LooksAheadIff(snaps: seq<HistoricalSnapshot>, t: nat)
    requires InTimeOrder(snaps) && snaps != []
    ensures Seek(snaps, t) < |snaps|
    ensures snaps[Seek(snaps, t)].timestampMs <= t <==> snaps[0].timestampMs <= t
    ensures forall i :: Seek(snaps, t) < i < |snaps| ==> snaps[i].timestampMs > t
  {
    CountSplits(snaps, t);
  }
}
